/** The transactions on publications and scan jobs, said over the tables alone: when each commits, with which error
    it is refused otherwise, and every row it leaves. */
module ScanRules {
  import opened Wrappers
  import opened ScanEvidence
  import opened ScanTables
  import opened WorkerDecisions
  import opened ScanProtocol
  import opened ScanSafety

  // ---------- publishing ----------

  predicate KeySpent(db: Db, actor: string, key: string) {
    exists i :: 0 <= i < |db.audit| && db.audit[i].actor == actor && db.audit[i].key == key
  }

  /** Another publication has the archive, or the name and version. */
  predicate Published(db: Db, identity: Identity) {
    exists pub :: pub in db.skills &&
      (|| db.skills[pub].identity.artifact == identity.artifact
       || (db.skills[pub].identity.name == identity.name && db.skills[pub].identity.version == identity.version))
  }

  /** Why an upload is refused, in the order of the checks. */
  function PublishRefusal(db: Db, u: Upload): Option<DbError> {
    if u.status != PendingReview && u.status != Listed then Some(InvalidTransition)
    else if u.status == Listed && (u.tierCd || u.scan.Some?) then Some(InvalidTransition)
    else if u.pub in db.skills || Published(db, u.identity) || (u.scan.Some? && u.scan.value in db.jobs)
    then Some(Duplicate)
    else if KeySpent(db, u.actor, u.key) then Some(KeyReused)
    else if !u.authorActive then Some(GuardAbort)
    else None
  }

  /** A new scan job: due at once, never attempted, without a lease, an analysis or a result. */
  ghost predicate JustAdmitted(j: Job, pub: string, now: Time) {
    && j.pub == pub && j.state == PendingSubmission && j.attempts == 0 && j.nextAttempt == now && j.created == now
    && j.leaseOwner == None && j.leaseExpires == None && j.analysis == None && j.verdict == None && j.stats == map[]
    && j.submittedAt == None && j.lastPolled == None && j.completedAt == None
  }

  /** What a committed upload adds, and nothing else. */
  ghost predicate PublishedAs(db: Db, after: Db, u: Upload, now: Time) {
    && after.skills.Keys == db.skills.Keys + {u.pub} && (forall p | p in db.skills :: after.skills[p] == db.skills[p])
    && after.skills[u.pub] == Skill(u.identity, u.status, 1, u.tierCd, u.scan.Some?, None)
    && after.audit == db.audit + [AuditRow(u.pub, 1, u.actor, None, u.status, u.key)]
    && (u.scan == None ==> after.jobs == db.jobs && after.events == db.events)
    && (u.scan.Some? ==>
          && after.jobs.Keys == db.jobs.Keys + {u.scan.value}
          && (forall j | j in db.jobs :: after.jobs[j] == db.jobs[j])
          && JustAdmitted(after.jobs[u.scan.value], u.pub, now)
          && after.events == db.events + [Event(u.scan.value, Admission, PendingSubmission, 0, None, map[], None)])
  }

  lemma SpentIffNotUnused(db: Db, actor: string, key: string)
    ensures KeySpent(db, actor, key) <==> !KeyUnused(db.audit, actor, key)
  {
    if r :| r in db.audit && r.actor == actor && r.key == key {
      var i :| 0 <= i < |db.audit| && db.audit[i] == r;
    }
  }

  lemma PublishedIffTaken(db: Db, identity: Identity)
    ensures Published(db, identity) <==> IdentityTaken(db, identity)
  {
  }

  /** On consistent tables no job belongs to a publication that does not exist, and no audit row either. */
  lemma NothingForNewcomers(db: Db, pub: string)
    requires LinksOk(db) && SkillsOk(db) && pub !in db.skills
    ensures (forall id | id in db.jobs :: db.jobs[id].pub != pub) && NumberUnused(db.audit, pub, 1)
  {
  }

  lemma AdmitsUnlessTaken(db: Db, u: Upload, now: Time)
    requires LinksOk(db) && SkillsOk(db) && u.pub !in db.skills
    ensures AdmitJob(db, u, now) == if u.scan.Some? && u.scan.value in db.jobs then Err(Duplicate)
                                    else if u.scan.None? then Ok(db)
                                    else Ok(db.(jobs := db.jobs[u.scan.value := FreshJob(u.pub, now)],
                                                events := db.events + [AdmissionEvent(u.scan.value)]))
  {
    NothingForNewcomers(db, u.pub);
  }

  /** The audit row of a new publication is only refused for its key. */
  lemma FirstRowCommits(db: Db, admitted: Db, u: Upload)
    requires admitted.skills == db.skills && admitted.audit == db.audit && SkillsOk(db) && LinksOk(db)
    requires u.pub !in db.skills
    ensures InsertAudit(admitted, AuditRow(u.pub, 1, u.actor, None, u.status, u.key)) ==
            if KeySpent(db, u.actor, u.key) then Err(KeyReused)
            else Ok(admitted.(audit := db.audit + [AuditRow(u.pub, 1, u.actor, None, u.status, u.key)]))
  {
    NothingForNewcomers(db, u.pub);
    SpentIffNotUnused(db, u.actor, u.key);
  }

  lemma InitialIffActive(db: Db, u: Upload)
    requires u.scan.Some? ==> u.status == PendingReview && u.scan.value in db.jobs &&
                              db.jobs[u.scan.value].pub == u.pub && db.jobs[u.scan.value].state == PendingSubmission
    ensures InitialSkillAllowed(db, u) <==> u.authorActive
  {
  }

  /** The tables with the rows of an upload, said as one update. */
  function WithUpload(db: Db, u: Upload, now: Time): Db {
    var jobs := if u.scan.None? then db.jobs else db.jobs[u.scan.value := FreshJob(u.pub, now)];
    var events := if u.scan.None? then db.events else db.events + [AdmissionEvent(u.scan.value)];
    Db(jobs, db.skills[u.pub := Skill(u.identity, u.status, 1, u.tierCd, u.scan.Some?, None)],
       db.audit + [AuditRow(u.pub, 1, u.actor, None, u.status, u.key)], events)
  }

  lemma UploadAdds(db: Db, u: Upload, now: Time)
    requires u.pub !in db.skills && (u.scan.Some? ==> u.scan.value !in db.jobs)
    ensures PublishedAs(db, WithUpload(db, u, now), u, now)
  {
  }

  predicate EarlyRefusal(u: Upload) {
    (u.status != PendingReview && u.status != Listed) || (u.status == Listed && (u.tierCd || u.scan.Some?))
  }

  lemma EarlyIsRefused(db: Db, u: Upload, now: Time)
    ensures EarlyRefusal(u) ==> CreatePublication(db, u, now) == Err(InvalidTransition)
    ensures !EarlyRefusal(u) && (u.pub in db.skills || IdentityTaken(db, u.identity)) ==>
              CreatePublication(db, u, now) == Err(Duplicate)
  {
  }

  lemma LateDecides(db: Db, u: Upload, now: Time)
    requires LinksOk(db) && SkillsOk(db) && !EarlyRefusal(u) && u.pub !in db.skills && !IdentityTaken(db, u.identity)
    ensures CreatePublication(db, u, now) ==
            if u.scan.Some? && u.scan.value in db.jobs then Err(Duplicate)
            else if KeySpent(db, u.actor, u.key) then Err(KeyReused)
            else if !u.authorActive then Err(GuardAbort)
            else Ok(WithUpload(db, u, now))
  {
    AdmitsUnlessTaken(db, u, now);
    if AdmitJob(db, u, now).Ok? {
      var admitted := AdmitJob(db, u, now).value;
      FirstRowCommits(db, admitted, u);
      InitialIffActive(admitted.(audit := db.audit + [AuditRow(u.pub, 1, u.actor, None, u.status, u.key)]), u);
    }
  }

  /** A publication commits if and only if nothing speaks against it, and then adds exactly its own rows; otherwise
      its error is the first reason. In particular Tier C or D authority, or a scan, only forbids to start listed. */
  lemma {:induction false} PublishCommitsIff(db: Db, u: Upload, now: Time)
    requires LinksOk(db) && SkillsOk(db)
    ensures match PublishRefusal(db, u)
            case Some(e) => CreatePublication(db, u, now) == Err(e)
            case None =>
              && CreatePublication(db, u, now).Ok?
              && PublishedAs(db, CreatePublication(db, u, now).value, u, now)
  {
    PublishedIffTaken(db, u.identity);
    EarlyIsRefused(db, u, now);
    if !EarlyRefusal(u) && u.pub !in db.skills && !IdentityTaken(db, u.identity) {
      LateDecides(db, u, now);
      if PublishRefusal(db, u).None? {
        UploadAdds(db, u, now);
      }
    }
  }

  // ---------- reviewing ----------

  /** A scan of the publication has ended without finding malware. */
  predicate ScanAllows(db: Db, pub: string) {
    exists id :: id in db.jobs && db.jobs[id].pub == pub &&
                 (|| db.jobs[id].state == JobState.Clean || db.jobs[id].state == ManualReview
                  || db.jobs[id].state == Exhausted)
  }

  /** Why a decision is refused: what is pending can be listed or rejected, what is listed can be unlisted, nothing
      else; a key serves once; and a publication that needs a scan is only listed after one. */
  function ReviewRefusal(db: Db, pub: string, target: SkillStatus, actor: string, key: string): Option<DbError> {
    if target == PendingReview then Some(InvalidTransition)
    else if pub !in db.skills then Some(NotFound)
    else if (target == Unlisted) != (db.skills[pub].status == Listed) then Some(InvalidTransition)
    else if target != Unlisted && db.skills[pub].status != PendingReview then Some(InvalidTransition)
    else if KeySpent(db, actor, key) then Some(KeyReused)
    else if target == Listed && db.skills[pub].requiresScan && !ScanAllows(db, pub) then Some(GuardAbort)
    else None
  }

  /** One publication moved by one audit row; who listed it is recorded as its approver. */
  ghost predicate MovedBy(db: Db, after: Db, pub: string, target: SkillStatus, actor: string, key: string) {
    && pub in db.skills && pub in after.skills && after.jobs == db.jobs && after.events == db.events
    && var before := db.skills[pub];
       && after.skills == db.skills[pub := after.skills[pub]]
       && after.skills[pub] == Skill(before.identity, target, before.revision + 1, before.tierCd, before.requiresScan,
                                     if target == Listed then Some(actor) else before.approvedBy)
       && after.audit == db.audit + [AuditRow(pub, before.revision + 1, actor, Some(before.status), target, key)]
  }

  lemma AllowsIffPersisted(db: Db, pub: string)
    ensures ScanAllows(db, pub) <==> EvidencePersisted(db, pub)
  {
  }

  /** A decision commits if and only if nothing speaks against it; otherwise its error is the first reason. */
  lemma {:induction false} ReviewCommitsIff(
      db: Db, pub: string, target: SkillStatus, actor: string, key: string)
    requires SkillsOk(db)
    ensures match ReviewRefusal(db, pub, target, actor, key)
            case Some(e) => TransitionSkill(db, pub, target, actor, key) == Err(e)
            case None => TransitionSkill(db, pub, target, actor, key).Ok? &&
                         MovedBy(db, TransitionSkill(db, pub, target, actor, key).value, pub, target, actor, key)
  {
    SpentIffNotUnused(db, actor, key);
    AllowsIffPersisted(db, pub);
    if target != PendingReview && pub in db.skills && PriorStatus(target) == Some(db.skills[pub].status) {
      ReviewedRow(db, pub, target, actor, key);
    }
  }

  /** A listing that lacks the scan it needs. */
  ghost predicate Unscanned(db: Db, pub: string, target: SkillStatus) {
    target == Listed && pub in db.skills && db.skills[pub].requiresScan && !EvidencePersisted(db, pub)
  }

  lemma ReviewedRow(db: Db, pub: string, target: SkillStatus, actor: string, key: string)
    requires SkillsOk(db) && pub in db.skills && PriorStatus(target) == Some(db.skills[pub].status)
    ensures var row := AuditRow(pub, db.skills[pub].revision + 1, actor, Some(db.skills[pub].status), target, key);
            var r := TransitionSkill(db, pub, target, actor, key);
            && (!KeyUnused(db.audit, actor, key) ==> r == Err(KeyReused))
            && (KeyUnused(db.audit, actor, key) && Unscanned(db, pub, target) ==> r == Err(GuardAbort))
            && (KeyUnused(db.audit, actor, key) && !Unscanned(db, pub, target) ==>
                  r == Ok(db.(audit := db.audit + [row], skills := db.skills[pub := Applied(db.skills[pub], row)])))
  {
    var row := AuditRow(pub, db.skills[pub].revision + 1, actor, Some(db.skills[pub].status), target, key);
    TransitionCommitsIff(db, row);
  }

  // ---------- claiming ----------

  predicate Unfinished(j: Job) {
    j.state == PendingSubmission || j.state == Submitted || j.state == Polling
  }

  /** Unfinished, due, and either never leased or with a lease that has run out. */
  predicate Due(j: Job, now: Time) {
    Unfinished(j) && j.nextAttempt <= now && (j.leaseExpires == None || j.leaseExpires.value <= now)
  }

  /** A claim takes a due job such that every other due job has a later time, or the same and is not older. */
  lemma {:induction false} ClaimsFirstDue(db: Db, id: string, now: Time)
    ensures IsCandidate(db, id, now) <==>
              && id in db.jobs && Due(db.jobs[id], now)
              && forall other | other in db.jobs && Due(db.jobs[other], now) ::
                   || db.jobs[id].nextAttempt < db.jobs[other].nextAttempt
                   || (db.jobs[id].nextAttempt == db.jobs[other].nextAttempt &&
                       db.jobs[id].created <= db.jobs[other].created)
  {
    forall j: Job
      ensures Claimable(j, now) <==> Due(j, now)
    {
    }
  }

  /** A lease is held by its owner, and by nobody else, until exactly the given number of seconds after the claim;
      from then on, and not before, the job can be claimed again. The claim counts one attempt, logs it, and touches
      nothing else. */
  lemma {:induction false} LeaseLasts(db: Db, id: string, owner: string, now: Time, seconds: Time)
    requires IsCandidate(db, id, now) && ClaimDue(db, id, owner, now, seconds).Ok? && seconds >= 0.0
    ensures var (after, rec) := ClaimDue(db, id, owner, now, seconds).value;
            && (forall w, t :: HoldsLease(after, id, w, t) <==> w == owner && t < now + seconds)
            && (forall t :: Due(rec, t) <==> t >= now + seconds)
            && after == db.(jobs := db.jobs[id := rec], events := after.events)
            && rec == db.jobs[id].(leaseOwner := Some(owner), leaseExpires := Some(now + seconds),
                                   attempts := db.jobs[id].attempts + 1)
            && after.events == db.events + [Event(id, Lease, rec.state, rec.attempts, rec.verdict, rec.stats,
                  Some(owner))]
  {
  }

  // ---------- writing an outcome ----------

  /** Nothing about the job changed but what a report is about: its state and time, the end of the lease, the
      analysis once it is known, and when it was submitted or polled. */
  ghost predicate ReportedAs(j: Job, n: Job, r: Report, now: Time) {
    && n.pub == j.pub && n.attempts == j.attempts && n.created == j.created && n.verdict == j.verdict
    && n.stats == j.stats && n.completedAt == j.completedAt
    && n.state == r.state && n.nextAttempt == r.next && n.leaseOwner == None && n.leaseExpires == None
    && n.analysis == (if r.analysis.Some? then r.analysis else j.analysis)
    && n.submittedAt == (if r.submitted then Some(now) else j.submittedAt)
    && n.lastPolled == (if r.polled then Some(now) else j.lastPolled)
  }

  /** The owner's lease has not run out, and the job is in a state that the report expects. */
  predicate Entitled(db: Db, id: string, owner: string, expected: set<JobState>, now: Time) {
    && id in db.jobs && db.jobs[id].leaseOwner == Some(owner) && db.jobs[id].leaseExpires.Some?
    && now < db.jobs[id].leaseExpires.value && db.jobs[id].state in expected
  }

  /** The rows after a report: its job and one event. */
  ghost predicate ReportLeaves(db: Db, after: Db, id: string, owner: string, r: Report, now: Time) {
    && id in db.jobs && id in after.jobs && ReportedAs(db.jobs[id], after.jobs[id], r, now)
    && after.jobs == db.jobs[id := after.jobs[id]] && after.skills == db.skills && after.audit == db.audit
    && after.events == db.events + [Event(id, Progress, r.state, db.jobs[id].attempts, None, map[], Some(owner))]
  }

  /** A report by anybody but the holder of an unexpired lease, or in an unexpected state, is refused; what commits
      changes one job as reported, with one event. */
  lemma {:induction false} ReportWrites(db: Db, id: string, owner: string, r: Report, now: Time)
    ensures !Entitled(db, id, owner, r.expected, now) <==> RecordProgress(db, id, owner, r, now) == Err(LeaseLost)
    ensures RecordProgress(db, id, owner, r, now).Ok? ==>
              ReportLeaves(db, RecordProgress(db, id, owner, r, now).value, id, owner, r, now)
  {
  }

  ghost predicate CompletedAs(j: Job, n: Job, o: Outcome, now: Time) {
    && n.pub == j.pub && n.attempts == j.attempts && n.created == j.created && n.analysis == j.analysis
    && n.submittedAt == j.submittedAt && n.nextAttempt == j.nextAttempt
    && n.state == o.state && n.verdict == Some(o.verdict) && n.stats == o.stats
    && n.completedAt == Some(now) && n.lastPolled == Some(now) && n.leaseOwner == None && n.leaseExpires == None
  }

  /** What a completion does to the publication: a clean result lists a pending one without Tier C/D, a malicious
      one rejects a pending one, and anything else leaves it alone. */
  function Verdict(j: Job, sk: Skill, s: JobState): Option<SkillStatus> {
    if sk.status != PendingReview then None
    else if s == JobState.Malicious then Some(Rejected)
    else if s == JobState.Clean && !sk.tierCd then Some(Listed)
    else None
  }

  lemma VerdictIsAudit(db: Db, id: string, w: string, o: Outcome, now: Time)
    requires id in db.jobs && db.jobs[id].pub in db.skills && Terminal(o.state)
    ensures var done := Finished(db, id, w, o, now);
            var sk := db.skills[db.jobs[id].pub];
            CompletionAudit(done, id, w, o.state) ==
            match Verdict(db.jobs[id], sk, o.state)
            case None => None
            case Some(target) => Some(AuditRow(db.jobs[id].pub, sk.revision + 1, w, Some(PendingReview), target,
                                               CompletionKey(id, o.state)))
  {
  }

  /** The rows after a completion: its job, one event, and the publication with its audit row if the verdict moves
      it. */
  ghost predicate CompletionLeaves(db: Db, after: Db, id: string, w: string, o: Outcome, now: Time) {
    && id in db.jobs && db.jobs[id].pub in db.skills && id in after.jobs
    && CompletedAs(db.jobs[id], after.jobs[id], o, now) && after.jobs == db.jobs[id := after.jobs[id]]
    && after.events == db.events + [Event(id, Completion, o.state, db.jobs[id].attempts, Some(o.verdict), o.stats,
          Some(w))]
    && var pub := db.jobs[id].pub;
       match Verdict(db.jobs[id], db.skills[pub], o.state)
       case None => after.skills == db.skills && after.audit == db.audit
       case Some(target) =>
         && after.audit == db.audit + [AuditRow(pub, db.skills[pub].revision + 1, w, Some(PendingReview), target,
                                                CompletionKey(id, o.state))]
         && after.skills == db.skills[pub := db.skills[pub].(
              status := target, revision := db.skills[pub].revision + 1,
              approvedBy := if target == Listed then Some(w) else db.skills[pub].approvedBy)]
  }

  /** A completion under a held lease either leaves exactly these rows, or is refused for its key. */
  lemma {:induction false} CompletionWrites(max: nat, db: Db, id: string, w: string, o: Outcome, now: Time)
    requires DbOk(max, db) && HoldsLease(db, id, w, now)
    requires !Terminal(db.jobs[id].state) && ActionOk(max, db.jobs[id], Finish(o)) && StatsAccepted(o.stats)
    ensures var r := Complete(db, id, w, o, now);
            var moves := Verdict(db.jobs[id], db.skills[db.jobs[id].pub], o.state).Some?;
            if moves && KeySpent(db, w, CompletionKey(id, o.state)) then r == Err(KeyReused)
            else r.Ok? && r.value.1 && CompletionLeaves(db, r.value.0, id, w, o, now)
  {
    CompletionRow(max, db, id, o, now);
    VerdictIsAudit(db, id, w, o, now);
    SpentIffNotUnused(db, w, CompletionKey(id, o.state));
    var done := Finished(db, id, w, o, now);
    var row := CompletionAudit(done, id, w, o.state);
    if row.Some? {
      CompletionAuditCommits(max, db, id, w, o, now);
      CompletionRowLeaves(max, db, id, w, o, now);
    }
  }

  /** Without the unexpired lease nothing is written: a job that is already finished is answered with false, any other
      one with a lost lease; and only a final state can be completed to. */
  lemma {:induction false} LateCompletionsWriteNothing(db: Db, id: string, w: string, o: Outcome, now: Time)
    requires StatsAccepted(o.stats)
    ensures var r := Complete(db, id, w, o, now);
            var finished := id in db.jobs && !Unfinished(db.jobs[id]);
            var final := o.state == JobState.Clean || o.state == JobState.Malicious || o.state == ManualReview ||
                         o.state == Exhausted;
            && (!final <==> r == Err(InvalidInput))
            && (final && finished <==> r == Ok((db, false)))
            && (final && !finished && !Entitled(db, id, w, {PendingSubmission, Submitted, Polling}, now) ==>
                  r == Err(LeaseLost))
  {
  }

  lemma CompletionRowLeaves(max: nat, db: Db, id: string, w: string, o: Outcome, now: Time)
    requires DbOk(max, db) && id in db.jobs && db.jobs[id].pub in db.skills && Terminal(o.state)
    requires CompletionAudit(Finished(db, id, w, o, now), id, w, o.state).Some?
    ensures var done := Finished(db, id, w, o, now);
            var r := InsertAudit(done, CompletionAudit(done, id, w, o.state).value);
            r.Ok? ==> CompletionLeaves(db, r.value, id, w, o, now)
  {
    var done := Finished(db, id, w, o, now);
    VerdictIsAudit(db, id, w, o, now);
    TransitionCommitsIff(done, CompletionAudit(done, id, w, o.state).value);
  }

  // ---------- the guard on every update of a job ----------

  /** How far a job has come. */
  function Stage(s: JobState): nat {
    match s
    case PendingSubmission => 0
    case Submitted => 1
    case Polling => 1
    case _ => 2
  }

  /** Whatever writes the row, the database lets no job go back, none leave its result, none be judged clean or
      malicious before it was submitted or without counts, and none change its analysis. */
  lemma {:induction false} GuardProtects(o: Job, n: Job)
    requires JobUpdateAllowed(o, n)
    ensures Unfinished(o) && Stage(o.state) <= Stage(n.state)
    ensures n.state == Submitted && o.state != Submitted ==> o.state == PendingSubmission
    ensures n.state == JobState.Clean || n.state == JobState.Malicious ==>
              && o.state != PendingSubmission && n.analysis.Some? && n.stats != map[] && n.completedAt.Some?
              && n.verdict != Some(if n.state == JobState.Clean then "malicious" else "clean")
    ensures n.state == ManualReview || n.state == Exhausted ==> n.verdict.Some? && n.completedAt.Some?
    ensures Unfinished(n) ==> n.completedAt == None
    ensures o.analysis.Some? ==> n.analysis == o.analysis
  {
  }
}
