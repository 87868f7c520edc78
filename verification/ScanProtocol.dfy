/** Any number of workers, publishers and administrators over one set of tables. Each step is one committed or
    rolled-back transaction, one provider interaction, or one crash; the steps of different workers interleave freely.
    The clock readings in the steps are arbitrary: nothing is assumed about how they relate. */
module ScanProtocol {
  import opened Wrappers
  import opened ScanEvidence
  import opened ScanTables
  import opened WorkerDecisions

  /** Where a worker is in its run; `rec` is the row its claim returned. */
  datatype Local =
    | Idle
    | Claimed(id: string, rec: Job, at: Time)
    | Decided(id: string, rec: Job, action: Action)

  datatype Call = Call(job: string, attempt: nat)

  /** `calls` lists the provider interactions so far: a history no step reads. */
  datatype System = System(db: Db, workers: map<string, Local>, calls: seq<Call>)

  datatype Step =
    | Publish(upload: Upload, now: Time)
    | Review(pub: string, target: SkillStatus, actor: string, key: string)
    | Claim(worker: string, id: string, now: Time)
    | Act(worker: string, reply: Reply, now: Time, jitter: real)
    | ReadBack(worker: string)
    | Commit(worker: string, now: Time)
    | Crash(worker: string)

  const START: System := System(EMPTY, map[], [])

  function LocalOf(s: System, w: string): Local {
    if w in s.workers then s.workers[w] else Idle
  }

  function Kept(db: Db, r: Result<Db, DbError>): Db {
    if r.Ok? then r.value else db
  }

  /** A retry first reads the row in a transaction of its own; the report expects the state it saw. */
  function RetryReport(j: Job, next: Time): Report {
    Report({j.state}, j.state, next, None, false, j.analysis.Some?)
  }

  /** The outcome transaction of a decided worker. */
  function CommitAction(db: Db, id: string, w: string, a: Action, now: Time): Result<Db, DbError> {
    match a
    case Finish(outcome) =>
      var r := Complete(db, id, w, outcome, now);
      if r.Ok? then Ok(r.value.0) else Err(r.error)
    case Tell(report) => RecordProgress(db, id, w, report, now)
    case _ => Ok(db)
  }

  function ClaimStep(p: Policy, s: System, w: string, id: string, now: Time): System {
    if !LocalOf(s, w).Idle? || !IsCandidate(s.db, id, now) then s
    else
      var r := ClaimDue(s.db, id, w, now, p.leaseSeconds as real);
      if r.Err? then s
      else s.(db := r.value.0, workers := s.workers[w := Claimed(id, r.value.1, now)])
  }

  function ActStep(p: Policy, s: System, w: string, reply: Reply, now: Time, jitter: real): System {
    var l := LocalOf(s, w);
    if !l.Claimed? || !(0.0 <= jitter <= p.jitter) then s
    else
      var action := Decide(p, l.rec, l.at, reply, now, jitter);
      s.(workers := s.workers[w := if action.Abandon? then Idle else Decided(l.id, l.rec, action)],
         calls := if CallsProvider(p, l.rec, l.at, reply) then s.calls + [Call(l.id, l.rec.attempts)] else s.calls)
  }

  function ReadBackStep(s: System, w: string): System {
    var l := LocalOf(s, w);
    if !l.Decided? || !l.action.Retry? then s
    else if l.id !in s.db.jobs then s.(workers := s.workers[w := Idle])
    else s.(workers := s.workers[w := l.(action := Tell(RetryReport(s.db.jobs[l.id], l.action.next)))])
  }

  function CommitStep(s: System, w: string, now: Time): System {
    var l := LocalOf(s, w);
    if !l.Decided? || l.action.Retry? then s
    else s.(db := Kept(s.db, CommitAction(s.db, l.id, w, l.action, now)), workers := s.workers[w := Idle])
  }

  /** A step that is not enabled changes nothing. */
  function Next(p: Policy, s: System, step: Step): System {
    match step
    case Publish(upload, now) => s.(db := Kept(s.db, CreatePublication(s.db, upload, now)))
    case Review(pub, target, actor, key) => s.(db := Kept(s.db, TransitionSkill(s.db, pub, target, actor, key)))
    case Claim(w, id, now) => ClaimStep(p, s, w, id, now)
    case Act(w, reply, now, jitter) => ActStep(p, s, w, reply, now, jitter)
    case ReadBack(w) => ReadBackStep(s, w)
    case Commit(w, now) => CommitStep(s, w, now)
    case Crash(w) => s.(workers := s.workers[w := Idle])
  }

  /** The tables after a step: only transactions touch them. */
  function NextDb(p: Policy, s: System, step: Step): Db {
    match step
    case Publish(upload, now) => Kept(s.db, CreatePublication(s.db, upload, now))
    case Review(pub, target, actor, key) => Kept(s.db, TransitionSkill(s.db, pub, target, actor, key))
    case Claim(w, id, now) => ClaimStep(p, s, w, id, now).db
    case Commit(w, now) => CommitStep(s, w, now).db
    case _ => s.db
  }

  lemma NextTables(p: Policy, s: System, step: Step)
    ensures Next(p, s, step).db == NextDb(p, s, step)
  {
  }

  function Run(p: Policy, s: System, steps: seq<Step>): System {
    if steps == [] then s else Next(p, Run(p, s, steps[..|steps| - 1]), steps[|steps| - 1])
  }

  lemma {:induction false} RunAppends(p: Policy, s: System, a: seq<Step>, b: seq<Step>)
    ensures Run(p, s, a + b) == Run(p, Run(p, s, a), b)
  {
    if b == [] {
      assert a + b == a;
    } else {
      var c := b[..|b| - 1];
      assert (a + b)[..|a + b| - 1] == a + c;
      RunAppends(p, s, a, c);
    }
  }

  // ---------- what every reachable state satisfies ----------

  /** One job row is internally consistent; `max` is the attempt budget. */
  ghost predicate JobOk(max: nat, j: Job) {
    && (j.leaseOwner.Some? <==> j.leaseExpires.Some?)
    && (j.state == PendingSubmission ==> j.analysis.None?)
    && ((InFlight(j.state) || Conclusive(j.state)) ==> j.analysis.Some? && j.submittedAt.Some?)
    && (!Terminal(j.state) ==> j.completedAt.None? && j.verdict.None? && j.stats == map[])
    && (Terminal(j.state) ==> j.leaseOwner.None? && j.completedAt.Some? && j.verdict.Some? && j.attempts >= 1)
    && (j.state == JobState.Clean ==> HarmlessMajority(j.stats))
    && (j.state == JobState.Malicious ==> Detected(j.stats))
    && (j.leaseOwner.Some? ==> j.attempts >= 1)
    && (j.leaseOwner.None? && !Terminal(j.state) ==> j.attempts <= max)
  }

  ghost predicate JobsOk(max: nat, db: Db) {
    forall id | id in db.jobs :: JobOk(max, db.jobs[id])
  }

  /** The visibility a job's progress allows its publication. */
  ghost predicate Visible(j: Job, sk: Skill) {
    && sk.requiresScan
    && (!Terminal(j.state) ==> Withheld(sk.status))
    && (j.state == JobState.Malicious ==> sk.status == Rejected)
    && (j.state == JobState.Clean && !sk.tierCd ==> sk.status != PendingReview)
  }

  ghost predicate LinksOk(db: Db) {
    && (forall id | id in db.jobs :: db.jobs[id].pub in db.skills && Visible(db.jobs[id], db.skills[db.jobs[id].pub]))
    && (forall a, b | a in db.jobs && b in db.jobs && db.jobs[a].pub == db.jobs[b].pub :: a == b)
  }

  ghost predicate HasJob(db: Db, pub: string) {
    exists id :: id in db.jobs && db.jobs[id].pub == pub
  }

  ghost predicate ScansOk(db: Db) {
    forall pub | pub in db.skills && db.skills[pub].requiresScan :: HasJob(db, pub)
  }

  ghost predicate SkillOk(sk: Skill) {
    && (Withheld(sk.status) ==> sk.approvedBy.None?)
    && (sk.tierCd && sk.status == Listed ==> sk.approvedBy.Some?)
    && (match sk.status
        case PendingReview => sk.revision == 1
        case Listed => sk.revision == (if sk.approvedBy.Some? then 2 else 1)
        case Rejected => sk.revision == 2
        case Unlisted => sk.revision == (if sk.approvedBy.Some? then 3 else 2))
  }

  ghost predicate SkillsOk(db: Db) {
    && (forall pub | pub in db.skills :: SkillOk(db.skills[pub]))
    && (forall r | r in db.audit :: r.pub in db.skills && r.number <= db.skills[r.pub].revision)
  }

  /** A worker that is in the middle of a run: while the row still carries its lease, the row is exactly what its claim
      returned. */
  ghost predicate Fenced(max: nat, db: Db, w: string, l: Local) {
    l.Idle? ||
    (&& l.id in db.jobs
     && l.rec.leaseOwner == Some(w)
     && !Terminal(l.rec.state)
     && JobOk(max, l.rec)
     && l.rec.attempts <= db.jobs[l.id].attempts
     && (db.jobs[l.id].leaseOwner == Some(w) ==> db.jobs[l.id] == l.rec)
     && (l.Decided? ==> ActionOk(max, l.rec, l.action))
     && (l.Decided? && l.action.Tell? && db.jobs[l.id].leaseOwner == Some(w) ==>
           l.rec.state in l.action.report.expected))
  }

  ghost predicate ActionOk(max: nat, rec: Job, a: Action) {
    match a
    case Finish(o) =>
      && (Conclusive(o.state) ==>
            InFlight(rec.state) && o.verdict == StateName(o.state))
      && StatsAccepted(o.stats)
      && Terminal(o.state)
      && (o.state == JobState.Clean ==> HarmlessMajority(o.stats))
      && (o.state == JobState.Malicious ==> Detected(o.stats))
    case Tell(r) =>
      && rec.attempts <= max
      && (|| (r.expected == {PendingSubmission} && r.state == Submitted && r.analysis.Some? && r.submitted)
          || (r.expected == {Submitted, Polling} && r.state == Polling && r.analysis.None? && !r.submitted)
          || (r.expected == {r.state} && r.analysis.None? && !r.submitted))
    case Retry(_) => rec.attempts <= max
    case Abandon => false
  }

  ghost predicate WorkersOk(max: nat, s: System) {
    forall w | w in s.workers :: Fenced(max, s.db, w, s.workers[w])
  }

  ghost predicate DbOk(max: nat, db: Db) {
    JobsOk(max, db) && LinksOk(db) && ScansOk(db) && SkillsOk(db)
  }

  ghost predicate Inv(p: Policy, s: System) {
    DbOk(p.maximumAttempts, s.db) && WorkersOk(p.maximumAttempts, s)
  }
}
