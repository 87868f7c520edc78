/** What one run of a worker leaves in the tables when nobody comes between and it ends within its lease. */
module RunRules {
  import opened Wrappers
  import opened ScanTables
  import opened WorkerDecisions
  import opened WorkerRules
  import opened ScanProtocol
  import opened ScanSafety
  import opened ScanKeys
  import opened ScanRules

  /** The report of a retry: the state stays, and a job that has been submitted counts as polled. */
  function KeepsState(rec: Job, next: Time): Report {
    Report({rec.state}, rec.state, next, None, false, rec.analysis.Some?)
  }

  /** The rows that a decision leaves. */
  ghost predicate DecisionLeaves(db: Db, after: Db, id: string, w: string, rec: Job, a: Action, now: Time) {
    match a
    case Abandon => after == db
    case Retry(next) => ReportLeaves(db, after, id, w, KeepsState(rec, next), now)
    case Tell(r) => ReportLeaves(db, after, id, w, r, now)
    case Finish(o) => CompletionLeaves(db, after, id, w, o, now)
  }

  /** The worker's place after the provider's reply and the read of a retry. */
  function ReadyToWrite(p: Policy, s: System, w: string, reply: Reply, replyAt: Time, jitter: real): System {
    ReadBackStep(ActStep(p, s, w, reply, replyAt, jitter), w)
  }

  function AsReport(rec: Job, a: Action): Action {
    if a.Retry? then Tell(KeepsState(rec, a.next)) else a
  }

  lemma DecidesAndReads(p: Policy, s: System, w: string, reply: Reply, replyAt: Time, jitter: real)
    requires LocalOf(s, w).Claimed? && 0.0 <= jitter <= p.jitter
    requires var l := LocalOf(s, w); l.id in s.db.jobs && s.db.jobs[l.id] == l.rec
    ensures var l := LocalOf(s, w);
            var t := ReadyToWrite(p, s, w, reply, replyAt, jitter);
            var a := Decide(p, l.rec, l.at, reply, replyAt, jitter);
            && t.db == s.db
            && LocalOf(t, w) == if a.Abandon? then Idle else Decided(l.id, l.rec, AsReport(l.rec, a))
  {
  }

  /** A run is recorded as one call of the provider, with its job and attempt, exactly when it makes one. */
  lemma {:induction false} CallsAreRecorded(p: Policy, s: System, w: string, reply: Reply, at: Time, jitter: real)
    requires LocalOf(s, w).Claimed? && 0.0 <= jitter <= p.jitter
    ensures var l := LocalOf(s, w);
            var calls := Hears(p, l.rec, l.at) &&
                         !(Submitting(l.rec) && (reply == MissingUpload || reply == UnreadableUpload));
            ReadyToWrite(p, s, w, reply, at, jitter).calls ==
              s.calls + (if calls then [Call(l.id, l.rec.attempts)] else [])
  {
    CallsProviderIff(p, LocalOf(s, w).rec, LocalOf(s, w).at, reply);
  }

  lemma {:induction false} WrittenInTime(p: Policy, ids: set<string>, steps: seq<Step>, w: string, now: Time)
    requires AllApart(ids, steps) && w in ids && InTime(Run(p, START, steps), w, now)
    ensures var s := Run(p, START, steps);
            var l := LocalOf(s, w);
            l.id in s.db.jobs && s.db.jobs[l.id] == l.rec &&
            DecisionLeaves(s.db, CommitStep(s, w, now).db, l.id, w, l.rec, l.action, now)
  {
    SeparateWorkersCommit(p, ids, steps, w, now);
    ReachableInv(p, steps);
    CommitLeaves(p.maximumAttempts, Run(p, START, steps), w, now);
  }

  lemma CommitLeaves(max: nat, s: System, w: string, now: Time)
    requires DbOk(max, s.db) && Fenced(max, s.db, w, LocalOf(s, w)) && InTime(s, w, now)
    requires CommitAction(s.db, LocalOf(s, w).id, w, LocalOf(s, w).action, now).Ok?
    ensures var l := LocalOf(s, w);
            l.id in s.db.jobs && s.db.jobs[l.id] == l.rec &&
            DecisionLeaves(s.db, CommitStep(s, w, now).db, l.id, w, l.rec, l.action, now)
  {
    var l := LocalOf(s, w);
    assert JobOk(max, s.db.jobs[l.id]);
    match l.action
    case Finish(o) => CompletionWrites(max, s.db, l.id, w, o, now);
    case Tell(r) => ReportWrites(s.db, l.id, w, r, now);
  }

  /** From any reachable state: the worker hears the reply, decides by it, and writes exactly the rows of that
      decision, or nothing when the run breaks down. */
  lemma {:induction false} RunWrites(
      p: Policy, ids: set<string>, steps: seq<Step>, w: string, reply: Reply, replyAt: Time, jitter: real, now: Time)
    requires AllApart(ids, steps) && w in ids && 0.0 <= jitter <= p.jitter
    requires var l := LocalOf(Run(p, START, steps), w); l.Claimed? && HoldsLease(Run(p, START, steps).db, l.id, w, now)
    ensures var s := Run(p, START, steps);
            var l := LocalOf(s, w);
            var a := Decide(p, l.rec, l.at, reply, replyAt, jitter);
            DecisionLeaves(s.db, CommitStep(ReadyToWrite(p, s, w, reply, replyAt, jitter), w, now).db, l.id, w, l.rec,
                a, now)
  {
    var s := Run(p, START, steps);
    var l := LocalOf(s, w);
    ReachableInv(p, steps);
    assert Fenced(p.maximumAttempts, s.db, w, l);
    DecidesAndReads(p, s, w, reply, replyAt, jitter);
    var more := steps + [Act(w, reply, replyAt, jitter)] + [ReadBack(w)];
    TwoMore(p, steps, Act(w, reply, replyAt, jitter), ReadBack(w));
    assert Run(p, START, more) == ReadyToWrite(p, s, w, reply, replyAt, jitter);
    if !Decide(p, l.rec, l.at, reply, replyAt, jitter).Abandon? {
      assert AllApart(ids, more);
      WrittenInTime(p, ids, more, w, now);
    }
  }

  lemma TwoMore(p: Policy, steps: seq<Step>, a: Step, b: Step)
    ensures Run(p, START, steps + [a] + [b]) == Next(p, Next(p, Run(p, START, steps), a), b)
  {
    assert (steps + [a] + [b])[..|steps| + 1] == steps + [a] && (steps + [a])[..|steps|] == steps;
  }

  /** In particular a passing failure ends nothing: while attempts are left, the job keeps its state and result, is
      released, and waits for exactly the time the failure calls for. */
  lemma {:induction false} PassingFailuresReschedule(
      p: Policy, ids: set<string>, steps: seq<Step>, w: string, reply: Reply, replyAt: Time, jitter: real, now: Time)
    requires ValidPolicy(p) && AllApart(ids, steps) && w in ids && 0.0 <= jitter <= p.jitter
    requires var l := LocalOf(Run(p, START, steps), w);
             && l.Claimed? && HoldsLease(Run(p, START, steps).db, l.id, w, now) && Hears(p, l.rec, l.at)
             && MayRetry(reply) && l.rec.attempts < p.maximumAttempts
    ensures var s := Run(p, START, steps);
            var l := LocalOf(s, w);
            var after := CommitStep(ReadyToWrite(p, s, w, reply, replyAt, jitter), w, now).db;
            && l.id in after.jobs && after.jobs[l.id].state == l.rec.state && after.jobs[l.id].leaseOwner == None
            && after.jobs[l.id].nextAttempt == replyAt + RetryAfter(p, l.rec, reply, jitter)
            && after.skills == s.db.skills
  {
    var l := LocalOf(Run(p, START, steps), w);
    RunWrites(p, ids, steps, w, reply, replyAt, jitter, now);
    RetriesIff(p, l.rec, l.at, reply, replyAt, jitter);
  }

  /** A crash forgets the worker's run and nothing else; and whoever is idle then, the crashed worker included, leases
      the first due job, with one more attempt, until exactly the lease time has passed. */
  lemma {:induction false} CrashesAreRecovered(p: Policy, steps: seq<Step>, w: string, v: string, id: string, now: Time)
    requires ValidPolicy(p) && (v == w || LocalOf(Run(p, START, steps), v).Idle?)
    requires IsCandidate(Run(p, START, steps).db, id, now)
    ensures var s := Run(p, START, steps);
            var crashed := Run(p, START, steps + [Crash(w)]);
            && crashed.db == s.db && crashed.calls == s.calls && LocalOf(crashed, w) == Idle
            && (forall u | u != w :: LocalOf(crashed, u) == LocalOf(s, u))
    ensures var s := Run(p, START, steps);
            var t := Run(p, START, steps + [Crash(w)] + [Claim(v, id, now)]);
            && id in t.db.jobs && LocalOf(t, v) == Claimed(id, t.db.jobs[id], now)
            && t.db.jobs[id] == s.db.jobs[id].(leaseOwner := Some(v), attempts := s.db.jobs[id].attempts + 1,
                                               leaseExpires := Some(now + p.leaseSeconds as real))
  {
    var crashed := CrashForgets(p, Run(p, START, steps), w);
    ReachableInv(p, steps);
    TwoMore(p, steps, Crash(w), Claim(v, id, now));
    assert (steps + [Crash(w)])[..|steps|] == steps;
    ClaimsAsIdle(p, crashed, v, id, now);
  }

  lemma CrashForgets(p: Policy, s: System, w: string) returns (crashed: System)
    ensures crashed == Next(p, s, Crash(w)) && crashed.db == s.db && crashed.calls == s.calls
    ensures LocalOf(crashed, w) == Idle && forall u | u != w :: LocalOf(crashed, u) == LocalOf(s, u)
  {
    crashed := Next(p, s, Crash(w));
  }

  lemma ClaimsAsIdle(p: Policy, s: System, v: string, id: string, now: Time)
    requires ValidPolicy(p) && DbOk(p.maximumAttempts, s.db) && LocalOf(s, v).Idle? && IsCandidate(s.db, id, now)
    ensures var t := ClaimStep(p, s, v, id, now);
            && id in t.db.jobs && LocalOf(t, v) == Claimed(id, t.db.jobs[id], now)
            && t.db.jobs[id] == s.db.jobs[id].(leaseOwner := Some(v), attempts := s.db.jobs[id].attempts + 1,
                                               leaseExpires := Some(now + p.leaseSeconds as real))
  {
    ClaimKeepsDb(p.maximumAttempts, s.db, id, v, now, p.leaseSeconds as real);
    LeaseLasts(s.db, id, v, now, p.leaseSeconds as real);
  }
}
