/** The rows behind publications and scan jobs, the guards the database puts on every change of them, and the
    transactions the two repositories run. A transaction is a function from tables to tables; an error leaves
    the tables as they were. */
module ScanTables {
  import opened Wrappers
  import opened ScanEvidence

  datatype JobState = PendingSubmission | Submitted | Polling | Clean | Malicious | ManualReview | Exhausted

  datatype SkillStatus = PendingReview | Listed | Rejected | Unlisted

  datatype Job = Job(
    pub: string, analysis: Option<string>, state: JobState, attempts: nat, nextAttempt: Time,
    leaseOwner: Option<string>, leaseExpires: Option<Time>,
    submittedAt: Option<Time>, lastPolled: Option<Time>, completedAt: Option<Time>,
    verdict: Option<string>, stats: Stats, created: Time)

  /** What a publication is called, and the digests of its archive and manifest. */
  datatype Identity = Identity(name: string, version: string, artifact: string, manifest: string)

  /** A publication: the skill row together with the artifact row it is created with. */
  datatype Skill = Skill(
    identity: Identity, status: SkillStatus, revision: nat, tierCd: bool, requiresScan: bool,
        approvedBy: Option<string>)

  datatype AuditRow = AuditRow(
    pub: string, number: nat, actor: string, prior: Option<SkillStatus>, next: SkillStatus, key: string)

  /** What a scan event records; the rows of the four kinds differ in their detail text. */
  datatype EventKind = Admission | Lease | Progress | Completion

  datatype Event = Event(
    job: string, kind: EventKind, state: JobState, attempts: nat, verdict: Option<string>, stats: Stats,
    worker: Option<string>)

  datatype Db = Db(jobs: map<string, Job>, skills: map<string, Skill>, audit: seq<AuditRow>, events: seq<Event>)

  datatype DbError =
    | LeaseLost
    | KeyReused
    | GuardAbort
    | Duplicate
    | NotFound
    | InvalidTransition
    | InvalidInput

  const EMPTY: Db := Db(map[], map[], [], [])

  predicate Terminal(s: JobState) {
    s.Clean? || s.Malicious? || s.ManualReview? || s.Exhausted?
  }

  predicate InFlight(s: JobState) {
    s.Submitted? || s.Polling?
  }

  /** The two results that decide visibility without an administrator. */
  predicate Conclusive(s: JobState) {
    s.Clean? || s.Malicious?
  }

  /** The results after which a listing is allowed. */
  predicate Listable(s: JobState) {
    s.Clean? || s.ManualReview? || s.Exhausted?
  }

  predicate Withheld(s: SkillStatus) {
    s.PendingReview? || s.Rejected?
  }

  function StateName(s: JobState): string {
    match s
    case PendingSubmission => "pending_submission"
    case Submitted => "submitted"
    case Polling => "polling"
    case Clean => "clean"
    case Malicious => "malicious"
    case ManualReview => "manual_review"
    case Exhausted => "exhausted"
  }

  // ---------- guards on scan jobs ----------

  predicate StateStepAllowed(o: JobState, n: JobState) {
    n != o ==>
      || (o == PendingSubmission && n in {Submitted, ManualReview, Exhausted})
      || (InFlight(o) && n in {Polling, Clean, Malicious, ManualReview, Exhausted})
  }

  /** A comparison with an absent verdict is unknown in SQL, so an absent verdict passes the first rule about
      verdicts. */
  predicate EvidenceMatches(o: Job, n: Job) {
    && (InFlight(n.state) ==> n.analysis.Some? && n.submittedAt.Some? && n.completedAt.None?)
    && (Conclusive(n.state) ==>
          && n.analysis.Some? && n.completedAt.Some? && n.stats != map[]
          && (n.verdict.Some? ==> n.verdict.value == StateName(n.state)))
    && ((n.state.ManualReview? || n.state.Exhausted?) ==> n.completedAt.Some? && n.verdict.Some?)
    && (!Terminal(n.state) ==> n.completedAt.None?)
    && (o.analysis.Some? ==> n.analysis == o.analysis)
  }

  predicate JobUpdateAllowed(o: Job, n: Job) {
    && StateStepAllowed(o.state, n.state)
    && !Terminal(o.state)
    && EvidenceMatches(o, n)
  }

  // ---------- guards on publications and their audit ----------

  predicate KeyUnused(audit: seq<AuditRow>, actor: string, key: string) {
    forall r | r in audit :: !(r.actor == actor && r.key == key)
  }

  predicate NumberUnused(audit: seq<AuditRow>, pub: string, number: nat) {
    forall r | r in audit :: !(r.pub == pub && r.number == number)
  }

  predicate StatusStepAllowed(o: SkillStatus, n: SkillStatus) {
    || (o == PendingReview && n in {Listed, Rejected})
    || (o == Listed && n == Unlisted)
  }

  /** The row constraints and the before-insert guards of the transition audit. */
  predicate AuditInsertAllowed(db: Db, row: AuditRow) {
    && (row.prior.None? ==> row.number == 1)
    && (row.prior.Some? ==> row.number >= 2 && row.prior.value != row.next)
    && (row.prior.Some? ==>
          && row.pub in db.skills
          && db.skills[row.pub].status == row.prior.value
          && db.skills[row.pub].revision + 1 == row.number
          && StatusStepAllowed(row.prior.value, row.next))
    && (row.next == Listed && row.pub in db.skills && db.skills[row.pub].requiresScan ==>
          exists id :: id in db.jobs && db.jobs[id].pub == row.pub && Listable(db.jobs[id].state))
  }

  /** The update the audit row applies: listing also records who approved. */
  function Applied(o: Skill, row: AuditRow): Skill {
    if row.next == Listed then o.(status := Listed, revision := row.number, approvedBy := Some(row.actor))
    else o.(status := row.next, revision := row.number)
  }

  predicate SkillUpdateAllowed(audit: seq<AuditRow>, pub: string, o: Skill, n: Skill) {
    && (n.status == Listed ==> o.status == PendingReview && o.approvedBy.None? && n.approvedBy.Some?)
    && (n.revision != o.revision ==> n.status != o.status && n.revision == o.revision + 1)
    && (n.status != o.status ==> StatusStepAllowed(o.status, n.status))
    && (n.status != o.status ==>
          exists r :: r in audit && r.pub == pub && r.number == n.revision && r.prior == Some(o.status) &&
                      r.next == n.status && (n.status == Listed ==> n.approvedBy == Some(r.actor)))
    && (Withheld(n.status) ==> n.approvedBy.None?)
    && (n.tierCd && n.status == Listed ==> n.approvedBy.Some?)
  }

  /** Insert one audit row and run the update it triggers. */
  function InsertAudit(db: Db, row: AuditRow): Result<Db, DbError> {
    if !KeyUnused(db.audit, row.actor, row.key) then Err(KeyReused)
    else if !NumberUnused(db.audit, row.pub, row.number) || !AuditInsertAllowed(db, row) then Err(GuardAbort)
    else
      var logged := db.(audit := db.audit + [row]);
      if row.prior.None? then Ok(logged)
      else
        var o := db.skills[row.pub];
        var n := Applied(o, row);
        if SkillUpdateAllowed(logged.audit, row.pub, o, n) then Ok(logged.(skills := logged.skills[row.pub := n]))
        else Err(GuardAbort)
  }

  // ---------- publication and review ----------

  datatype Upload = Upload(
    pub: string, identity: Identity, tierCd: bool, status: SkillStatus, actor: string, key: string, authorActive: bool,
        scan: Option<string>)

  function FreshJob(pub: string, now: Time): Job {
    Job(pub, None, PendingSubmission, 0, now, None, None, None, None, None, None, map[], now)
  }

  function AdmissionEvent(id: string): Event {
    Event(id, Admission, PendingSubmission, 0, None, map[], None)
  }

  /** The job insert, when a scan is asked for, and its first event. */
  function AdmitJob(db: Db, u: Upload, now: Time): Result<Db, DbError> {
    if u.scan.None? then Ok(db)
    else if u.scan.value in db.jobs || exists id :: id in db.jobs && db.jobs[id].pub == u.pub then Err(Duplicate)
    else Ok(db.(jobs := db.jobs[u.scan.value := FreshJob(u.pub, now)],
        events := db.events + [AdmissionEvent(u.scan.value)]))
  }

  predicate InitialSkillAllowed(db: Db, u: Upload) {
    && u.authorActive
    && (u.scan.Some? ==>
          && u.status == PendingReview
          && exists id :: id in db.jobs && db.jobs[id].pub == u.pub && db.jobs[id].state == PendingSubmission)
  }

  /** One artifact row for each archive digest, and one publication for each name and version. */
  predicate SameIdentity(a: Identity, b: Identity) {
    a.artifact == b.artifact || (a.name == b.name && a.version == b.version)
  }

  predicate IdentityTaken(db: Db, identity: Identity) {
    exists pub :: pub in db.skills && SameIdentity(db.skills[pub].identity, identity)
  }

  function CreatePublication(db: Db, u: Upload, now: Time): Result<Db, DbError> {
    if u.status !in {PendingReview, Listed} then Err(InvalidTransition)
    else if u.tierCd && u.status == Listed then Err(InvalidTransition)
    else if u.scan.Some? && u.status != PendingReview then Err(InvalidTransition)
    else if u.pub in db.skills || IdentityTaken(db, u.identity) then Err(Duplicate)
    else
      var admitted := AdmitJob(db, u, now);
      if admitted.Err? then admitted
      else
        var audited := InsertAudit(admitted.value, AuditRow(u.pub, 1, u.actor, None, u.status, u.key));
        if audited.Err? then audited
        else if !InitialSkillAllowed(audited.value, u) then Err(GuardAbort)
        else Ok(audited.value.(skills := audited.value.skills[u.pub := Skill(u.identity, u.status, 1, u.tierCd,
            u.scan.Some?, None)]))
  }

  function PriorStatus(target: SkillStatus): Option<SkillStatus> {
    match target
    case Listed => Some(PendingReview)
    case Rejected => Some(PendingReview)
    case Unlisted => Some(Listed)
    case PendingReview => None
  }

  /** An administrator's decision. */
  function TransitionSkill(db: Db, pub: string, target: SkillStatus, actor: string, key: string): Result<Db, DbError> {
    var prior := PriorStatus(target);
    if prior.None? then Err(InvalidTransition)
    else if pub !in db.skills then Err(NotFound)
    else if db.skills[pub].status != prior.value then Err(InvalidTransition)
    else InsertAudit(db, AuditRow(pub, db.skills[pub].revision + 1, actor, prior, target, key))
  }

  /** The review queue without its limit: an outer join of pending publications with their jobs. */
  predicate InReviewQueue(db: Db, pub: string) {
    && pub in db.skills
    && db.skills[pub].status == PendingReview
    && ( || (forall id | id in db.jobs :: db.jobs[id].pub != pub)
         || (exists id :: id in db.jobs && db.jobs[id].pub == pub && Listable(db.jobs[id].state)))
  }

  // ---------- leased scan work ----------

  predicate Claimable(j: Job, now: Time) {
    && !Terminal(j.state)
    && j.nextAttempt <= now
    && (j.leaseExpires.None? || j.leaseExpires.value <= now)
  }

  /** Queue order: next attempt first, then creation. */
  predicate QueuedNoLater(a: Job, b: Job) {
    a.nextAttempt < b.nextAttempt || (a.nextAttempt == b.nextAttempt && a.created <= b.created)
  }

  /** The row a claim may take: claimable, and no claimable row is queued strictly before it. */
  predicate IsCandidate(db: Db, id: string, now: Time) {
    && id in db.jobs
    && Claimable(db.jobs[id], now)
    && forall other | other in db.jobs && Claimable(db.jobs[other], now) :: QueuedNoLater(db.jobs[id], db.jobs[other])
  }

  function Leased(j: Job, owner: string, now: Time, lease: Time): Job {
    j.(leaseOwner := Some(owner), leaseExpires := Some(now + lease), attempts := j.attempts + 1)
  }

  function LeaseEvent(id: string, j: Job, owner: string): Event {
    Event(id, Lease, j.state, j.attempts, j.verdict, j.stats, Some(owner))
  }

  /** Lease one candidate row; the result carries the row as it was leased. */
  function ClaimDue(db: Db, id: string, owner: string, now: Time, lease: Time): Result<(Db, Job), DbError>
    requires IsCandidate(db, id, now)
  {
    var n := Leased(db.jobs[id], owner, now, lease);
    if !JobUpdateAllowed(db.jobs[id], n) then Err(GuardAbort)
    else Ok((db.(jobs := db.jobs[id := n], events := db.events + [LeaseEvent(id, n, owner)]), n))
  }

  predicate HoldsLease(db: Db, id: string, owner: string, now: Time) {
    && id in db.jobs
    && db.jobs[id].leaseOwner == Some(owner)
    && db.jobs[id].leaseExpires.Some?
    && db.jobs[id].leaseExpires.value > now
  }

  datatype Report = Report(
    expected: set<JobState>, state: JobState, next: Time, analysis: Option<string>, submitted: bool, polled: bool)

  function Reported(j: Job, r: Report, now: Time): Job {
    j.(state := r.state, nextAttempt := r.next, leaseOwner := None, leaseExpires := None,
       analysis := if r.analysis.Some? then r.analysis else j.analysis,
       submittedAt := if r.submitted then Some(now) else j.submittedAt,
       lastPolled := if r.polled then Some(now) else j.lastPolled)
  }

  function RecordProgress(db: Db, id: string, owner: string, r: Report, now: Time): Result<Db, DbError> {
    if !HoldsLease(db, id, owner, now) || db.jobs[id].state !in r.expected then Err(LeaseLost)
    else
      var n := Reported(db.jobs[id], r, now);
      if !JobUpdateAllowed(db.jobs[id], n) then Err(GuardAbort)
      else Ok(db.(jobs := db.jobs[id := n],
                  events := db.events + [Event(id, Progress, r.state, n.attempts, None, map[], Some(owner))]))
  }

  datatype Outcome = Outcome(state: JobState, verdict: string, stats: Stats)

  function Completed(j: Job, o: Outcome, now: Time): Job {
    j.(state := o.state, verdict := Some(o.verdict), stats := o.stats, completedAt := Some(now),
        lastPolled := Some(now),
       leaseOwner := None, leaseExpires := None)
  }

  function CompletionKey(id: string, s: JobState): string {
    "scan:" + id + ":" + StateName(s)
  }

  /** The visibility change that goes with a completion. Only a pending publication moves, and a listing also needs
      the absence of Tier C/D authority; otherwise the insert selects no row. */
  function CompletionAudit(db: Db, id: string, owner: string, s: JobState): Option<AuditRow>
    requires id in db.jobs
  {
    var pub := db.jobs[id].pub;
    if !Conclusive(s) || pub !in db.skills then None
    else
      var sk := db.skills[pub];
      var target := if s == Clean then Listed else Rejected;
      if sk.status != PendingReview || (target != Rejected && sk.tierCd) then None
      else Some(AuditRow(pub, sk.revision + 1, owner, Some(PendingReview), target, CompletionKey(id, s)))
  }

  /** Finish a job. The flag is false when the job was already finished. */
  function Complete(db: Db, id: string, owner: string, o: Outcome, now: Time): Result<(Db, bool), DbError> {
    if !Terminal(o.state) || !StatsAccepted(o.stats) then Err(InvalidInput)
    else if !HoldsLease(db, id, owner, now) || Terminal(db.jobs[id].state) then
      if id in db.jobs && Terminal(db.jobs[id].state) then Ok((db, false)) else Err(LeaseLost)
    else
      var n := Completed(db.jobs[id], o, now);
      if !JobUpdateAllowed(db.jobs[id], n) then Err(GuardAbort)
      else
        var done := db.(jobs := db.jobs[id := n],
                        events := db.events + [Event(id, Completion, o.state, n.attempts, Some(o.verdict), o.stats,
                            Some(owner))]);
        var row := CompletionAudit(done, id, owner, o.state);
        if row.None? then Ok((done, true))
        else
          var audited := InsertAudit(done, row.value);
          if audited.Err? then Err(audited.error) else Ok((audited.value, true))
  }
}
