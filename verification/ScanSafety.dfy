/** Safety over whole runs: fencing, visibility, and the absence of guard failures. */
module ScanSafety {
  import opened Wrappers
  import opened ScanEvidence
  import opened ScanTables
  import opened WorkerDecisions
  import opened ScanProtocol

  // ---------- the audited visibility change ----------

  ghost predicate EvidencePersisted(db: Db, pub: string) {
    exists id :: id in db.jobs && db.jobs[id].pub == pub && Listable(db.jobs[id].state)
  }

  /** The next audit row of a publication, as both repositories build it. */
  ghost predicate NextRow(db: Db, row: AuditRow) {
    && row.pub in db.skills
    && row.prior == Some(db.skills[row.pub].status)
    && row.number == db.skills[row.pub].revision + 1
    && StatusStepAllowed(db.skills[row.pub].status, row.next)
  }

  /** A transition commits exactly when its idempotency key is unused and, for a listing that needs a scan, evidence is
      persisted. No other guard, on the audit row or on the update it triggers, can fail. */
  lemma {:induction false} TransitionCommitsIff(db: Db, row: AuditRow)
    requires SkillsOk(db) && NextRow(db, row)
    ensures InsertAudit(db, row).Ok? <==>
              && KeyUnused(db.audit, row.actor, row.key)
              && (row.next == Listed && db.skills[row.pub].requiresScan ==> EvidencePersisted(db, row.pub))
    ensures InsertAudit(db, row).Ok? ==>
              InsertAudit(db, row).value ==
              db.(audit := db.audit + [row], skills := db.skills[row.pub := Applied(db.skills[row.pub], row)])
    ensures !KeyUnused(db.audit, row.actor, row.key) ==> InsertAudit(db, row) == Err(KeyReused)
  {
    var logged := db.(audit := db.audit + [row]);
    assert row in logged.audit;
    assert NumberUnused(db.audit, row.pub, row.number);
    assert SkillOk(db.skills[row.pub]);
    assert SkillUpdateAllowed(logged.audit, row.pub, db.skills[row.pub], Applied(db.skills[row.pub], row));
  }

  lemma TransitionKeepsSkills(db: Db, row: AuditRow)
    requires SkillsOk(db) && NextRow(db, row) && InsertAudit(db, row).Ok?
    ensures SkillsOk(InsertAudit(db, row).value)
  {
    TransitionCommitsIff(db, row);
    assert SkillOk(db.skills[row.pub]);
  }

  /** A committed transition leaves every job and its publication in agreement, even when the row of the publication's
      own job was changed earlier in the same transaction. */
  lemma TransitionKeepsLinks(db: Db, row: AuditRow)
    requires SkillsOk(db) && NextRow(db, row) && InsertAudit(db, row).Ok?
    requires forall a, b | a in db.jobs && b in db.jobs && db.jobs[a].pub == db.jobs[b].pub :: a == b
    requires forall id | id in db.jobs ::
               && db.jobs[id].pub in db.skills
               && db.skills[db.jobs[id].pub].requiresScan
               && ((db.jobs[id].pub == row.pub && row.next != Unlisted &&
                     (row.next == Listed ==> db.jobs[id].state != JobState.Malicious))
                   || Visible(db.jobs[id], db.skills[db.jobs[id].pub]))
    requires ScansOk(db)
    ensures LinksOk(InsertAudit(db, row).value)
    ensures ScansOk(InsertAudit(db, row).value)
  {
    TransitionCommitsIff(db, row);
    var after := InsertAudit(db, row).value;
    forall id | id in after.jobs
      ensures after.jobs[id].pub in after.skills && Visible(after.jobs[id], after.skills[after.jobs[id].pub])
    {
      if db.jobs[id].pub == row.pub && row.next == Listed {
        var e :| e in db.jobs && db.jobs[e].pub == row.pub && Listable(db.jobs[e].state);
        assert e == id;
      }
    }
    forall pub | pub in after.skills && after.skills[pub].requiresScan
      ensures HasJob(after, pub)
    {
      assert HasJob(db, pub);
      var e :| e in db.jobs && db.jobs[e].pub == pub;
      assert e in after.jobs;
    }
  }

  // ---------- each transaction keeps the tables consistent ----------

  lemma ReviewKeepsDb(max: nat, db: Db, pub: string, target: SkillStatus, actor: string, key: string)
    requires DbOk(max, db) && TransitionSkill(db, pub, target, actor, key).Ok?
    ensures DbOk(max, TransitionSkill(db, pub, target, actor, key).value)
    ensures TransitionSkill(db, pub, target, actor, key).value.jobs == db.jobs
  {
    var row := AuditRow(pub, db.skills[pub].revision + 1, actor, PriorStatus(target), target, key);
    TransitionCommitsIff(db, row);
    TransitionKeepsSkills(db, row);
    forall id | id in db.jobs && db.jobs[id].pub == pub && target == Listed
      ensures db.jobs[id].state != JobState.Malicious
    {
      assert Visible(db.jobs[id], db.skills[pub]);
    }
    TransitionKeepsLinks(db, row);
  }

  function PublishRow(u: Upload): AuditRow {
    AuditRow(u.pub, 1, u.actor, None, u.status, u.key)
  }

  lemma PublishEffect(db: Db, u: Upload, now: Time)
    requires CreatePublication(db, u, now).Ok?
    ensures u.pub !in db.skills && !IdentityTaken(db, u.identity)
    ensures u.status in {PendingReview, Listed} && (u.scan.Some? || u.tierCd ==> u.status == PendingReview)
    ensures var after := CreatePublication(db, u, now).value;
            && after.skills == db.skills[u.pub := Skill(u.identity, u.status, 1, u.tierCd, u.scan.Some?, None)]
            && after.audit == db.audit + [PublishRow(u)]
            && (u.scan.None? ==> after.jobs == db.jobs && after.events == db.events)
            && (u.scan.Some? ==>
                  && u.scan.value !in db.jobs
                  && (forall id | id in db.jobs :: db.jobs[id].pub != u.pub)
                  && after.jobs == db.jobs[u.scan.value := FreshJob(u.pub, now)]
                  && after.events == db.events + [AdmissionEvent(u.scan.value)])
  {
  }

  lemma PublishKeepsLinks(db: Db, u: Upload, now: Time)
    requires LinksOk(db) && ScansOk(db) && CreatePublication(db, u, now).Ok?
    ensures LinksOk(CreatePublication(db, u, now).value) && ScansOk(CreatePublication(db, u, now).value)
  {
    PublishEffect(db, u, now);
    var after := CreatePublication(db, u, now).value;
    forall id | id in after.jobs
      ensures after.jobs[id].pub in after.skills && Visible(after.jobs[id], after.skills[after.jobs[id].pub])
    {
      if u.scan != Some(id) {
        assert Visible(db.jobs[id], db.skills[db.jobs[id].pub]);
      }
    }
    forall pub | pub in after.skills && after.skills[pub].requiresScan
      ensures HasJob(after, pub)
    {
      if pub == u.pub {
        assert u.scan.value in after.jobs;
      } else {
        assert HasJob(db, pub);
        var e :| e in db.jobs && db.jobs[e].pub == pub;
        assert e in after.jobs;
      }
    }
  }

  lemma PublishKeepsSkills(db: Db, u: Upload, now: Time)
    requires SkillsOk(db) && CreatePublication(db, u, now).Ok?
    ensures SkillsOk(CreatePublication(db, u, now).value)
  {
    PublishEffect(db, u, now);
  }

  lemma PublishKeepsJobs(max: nat, db: Db, u: Upload, now: Time)
    requires JobsOk(max, db) && CreatePublication(db, u, now).Ok?
    ensures var after := CreatePublication(db, u, now).value;
            && JobsOk(max, after)
            && (forall id | id in db.jobs :: id in after.jobs && after.jobs[id] == db.jobs[id])
  {
    PublishEffect(db, u, now);
  }

  lemma PublishKeepsDb(max: nat, db: Db, u: Upload, now: Time)
    requires DbOk(max, db) && CreatePublication(db, u, now).Ok?
    ensures DbOk(max, CreatePublication(db, u, now).value)
  {
    PublishKeepsJobs(max, db, u, now);
    PublishKeepsSkills(db, u, now);
    PublishKeepsLinks(db, u, now);
  }

  /** Replacing one job row by one whose publication allows it. */
  lemma JobUpdateKeepsDb(max: nat, db: Db, id: string, n: Job, events: seq<Event>)
    requires DbOk(max, db) && id in db.jobs && JobOk(max, n) && n.pub == db.jobs[id].pub
    requires Visible(n, db.skills[n.pub])
    ensures DbOk(max, db.(jobs := db.jobs[id := n], events := events))
  {
    var after := db.(jobs := db.jobs[id := n], events := events);
    forall pub | pub in after.skills && after.skills[pub].requiresScan
      ensures HasJob(after, pub)
    {
      assert HasJob(db, pub);
      var e :| e in db.jobs && db.jobs[e].pub == pub;
      assert e in after.jobs && after.jobs[e].pub == pub;
    }
  }

  /** A claim never fails once a candidate is found: no guard aborts it. */
  lemma {:induction false} ClaimKeepsDb(max: nat, db: Db, id: string, w: string, now: Time, lease: Time)
    requires DbOk(max, db) && IsCandidate(db, id, now)
    ensures ClaimDue(db, id, w, now, lease).Ok?
    ensures var (after, rec) := ClaimDue(db, id, w, now, lease).value;
            && DbOk(max, after) && after.jobs == db.jobs[id := rec] && rec.leaseOwner == Some(w)
            && rec.attempts == db.jobs[id].attempts + 1 && !Terminal(rec.state) && JobOk(max, rec)
  {
    var j := db.jobs[id];
    assert JobOk(max, j) && Visible(j, db.skills[j.pub]);
    var n := Leased(j, w, now, lease);
    JobUpdateKeepsDb(max, db, id, n, db.events + [LeaseEvent(id, n, w)]);
  }

  /** A report under a lease that is still held commits: no guard aborts it. */
  lemma {:induction false} ProgressKeepsDb(max: nat, db: Db, id: string, w: string, r: Report, now: Time)
    requires DbOk(max, db) && HoldsLease(db, id, w, now) && db.jobs[id].state in r.expected
    requires !Terminal(db.jobs[id].state) && ActionOk(max, db.jobs[id], Tell(r))
    ensures RecordProgress(db, id, w, r, now).Ok?
    ensures var after := RecordProgress(db, id, w, r, now).value;
            && DbOk(max, after) && after.jobs == db.jobs[id := Reported(db.jobs[id], r, now)]
  {
    var j := db.jobs[id];
    assert JobOk(max, j) && Visible(j, db.skills[j.pub]);
    var n := Reported(j, r, now);
    assert JobOk(max, n);
    JobUpdateKeepsDb(max, db, id, n, db.events + [Event(id, Progress, r.state, n.attempts, None, map[], Some(w))]);
  }

  /** The tables of a completion after its job row and event, before its visibility change. */
  function Finished(db: Db, id: string, w: string, o: Outcome, now: Time): Db
    requires id in db.jobs
  {
    var n := Completed(db.jobs[id], o, now);
    db.(jobs := db.jobs[id := n],
        events := db.events + [Event(id, Completion, o.state, n.attempts, Some(o.verdict), o.stats, Some(w))])
  }

  lemma CompletionRow(max: nat, db: Db, id: string, o: Outcome, now: Time)
    requires DbOk(max, db) && id in db.jobs && ActionOk(max, db.jobs[id], Finish(o)) && !Terminal(db.jobs[id].state)
    requires db.jobs[id].leaseOwner.Some?
    ensures JobUpdateAllowed(db.jobs[id], Completed(db.jobs[id], o, now)) && JobOk(max, Completed(db.jobs[id], o, now))
  {
    assert JobOk(max, db.jobs[id]);
  }

  lemma CompletionKeepsScans(db: Db, id: string, w: string, o: Outcome, now: Time)
    requires ScansOk(db) && id in db.jobs
    ensures ScansOk(Finished(db, id, w, o, now))
  {
    var done := Finished(db, id, w, o, now);
    forall pub | pub in done.skills && done.skills[pub].requiresScan
      ensures HasJob(done, pub)
    {
      assert HasJob(db, pub);
      var e :| e in db.jobs && db.jobs[e].pub == pub;
      assert e in done.jobs && done.jobs[e].pub == pub;
    }
  }

  /** A completion moves its publication: a conclusive result for a pending one, and for a listing no Tier C/D
      authority. */
  predicate MovesPublication(db: Db, id: string, s: JobState) {
    && Conclusive(s) && id in db.jobs && db.jobs[id].pub in db.skills
    && var sk := db.skills[db.jobs[id].pub]; sk.status == PendingReview && (s == JobState.Clean ==> !sk.tierCd)
  }

  lemma AuditIffMoves(db: Db, id: string, w: string, o: Outcome, now: Time)
    requires id in db.jobs && Terminal(o.state)
    ensures CompletionAudit(Finished(db, id, w, o, now), id, w, o.state).Some? <==> MovesPublication(db, id, o.state)
  {
  }

  /** The visibility change of a completion commits exactly when its key was not used. */
  lemma CompletionAuditCommits(max: nat, db: Db, id: string, w: string, o: Outcome, now: Time)
    requires DbOk(max, db) && id in db.jobs && JobOk(max, Completed(db.jobs[id], o, now))
    requires !Terminal(db.jobs[id].state) && Terminal(o.state)
    requires CompletionAudit(Finished(db, id, w, o, now), id, w, o.state).Some?
    ensures var done := Finished(db, id, w, o, now);
            var row := CompletionAudit(done, id, w, o.state).value;
            && row.key == CompletionKey(id, o.state) && row.actor == w
            && (InsertAudit(done, row).Ok? <==> KeyUnused(db.audit, row.actor, row.key))
            && (InsertAudit(done, row).Err? ==> InsertAudit(done, row).error == KeyReused)
  {
    var done := Finished(db, id, w, o, now);
    var row := CompletionAudit(done, id, w, o.state).value;
    assert Visible(db.jobs[id], db.skills[row.pub]);
    assert done.jobs[id].pub == row.pub && done.jobs[id].state == o.state;
    assert o.state == JobState.Clean ==> EvidencePersisted(done, row.pub);
    assert SkillOk(db.skills[row.pub]);
    TransitionCommitsIff(done, row);
  }

  lemma CompletionKeepsJobs(max: nat, db: Db, id: string, w: string, o: Outcome, now: Time)
    requires JobsOk(max, db) && id in db.jobs && JobOk(max, Completed(db.jobs[id], o, now))
    ensures JobsOk(max, Finished(db, id, w, o, now))
  {
  }

  lemma AuditKeepsJobs(max: nat, db: Db, row: AuditRow)
    requires InsertAudit(db, row).Ok?
    ensures InsertAudit(db, row).value.jobs == db.jobs
    ensures JobsOk(max, db) ==> JobsOk(max, InsertAudit(db, row).value)
  {
  }

  /** And it leaves the tables consistent. */
  lemma CompletionAuditKeepsDb(max: nat, db: Db, id: string, w: string, o: Outcome, now: Time)
    requires DbOk(max, db) && id in db.jobs && JobOk(max, Completed(db.jobs[id], o, now))
    requires !Terminal(db.jobs[id].state) && Terminal(o.state)
    requires CompletionAudit(Finished(db, id, w, o, now), id, w, o.state).Some?
    ensures var done := Finished(db, id, w, o, now);
            var row := CompletionAudit(done, id, w, o.state).value;
            var r := InsertAudit(done, row);
            && row.key == CompletionKey(id, o.state) && row.actor == w
            && (r.Ok? <==> KeyUnused(db.audit, row.actor, row.key))
            && (r.Err? ==> r.error == KeyReused)
            && (r.Ok? ==> DbOk(max, r.value) && r.value.jobs == done.jobs)
  {
    var done := Finished(db, id, w, o, now);
    var row := CompletionAudit(done, id, w, o.state).value;
    assert Visible(db.jobs[id], db.skills[row.pub]);
    CompletionAuditCommits(max, db, id, w, o, now);
    if InsertAudit(done, row).Ok? {
      CompletionKeepsJobs(max, db, id, w, o, now);
      AuditKeepsJobs(max, done, row);
      CompletionKeepsLinks(max, db, id, w, o, now);
      assert DbOk(max, InsertAudit(done, row).value);
    }
  }

  lemma CompletionKeepsLinks(max: nat, db: Db, id: string, w: string, o: Outcome, now: Time)
    requires DbOk(max, db) && id in db.jobs && !Terminal(db.jobs[id].state) && Terminal(o.state)
    requires CompletionAudit(Finished(db, id, w, o, now), id, w, o.state).Some?
    requires InsertAudit(Finished(db, id, w, o, now),
               CompletionAudit(Finished(db, id, w, o, now), id, w, o.state).value).Ok?
    ensures var done := Finished(db, id, w, o, now);
            var after := InsertAudit(done, CompletionAudit(done, id, w, o.state).value).value;
            SkillsOk(after) && LinksOk(after) && ScansOk(after)
  {
    var done := Finished(db, id, w, o, now);
    var row := CompletionAudit(done, id, w, o.state).value;
    assert Visible(db.jobs[id], db.skills[row.pub]);
    CompletionKeepsScans(db, id, w, o, now);
    TransitionKeepsSkills(done, row);
    TransitionKeepsLinks(done, row);
  }

  /** A completion under a held lease fails exactly when it would move its publication and its idempotency key was
      already used by the same actor; otherwise it finishes the job. */
  lemma {:induction false} CompletionKeepsDb(max: nat, db: Db, id: string, w: string, o: Outcome, now: Time)
    requires DbOk(max, db) && HoldsLease(db, id, w, now)
    requires !Terminal(db.jobs[id].state) && ActionOk(max, db.jobs[id], Finish(o)) && StatsAccepted(o.stats)
    ensures var r := Complete(db, id, w, o, now);
            && (r.Err? <==> MovesPublication(db, id, o.state) && !KeyUnused(db.audit, w, CompletionKey(id, o.state)))
            && (r.Err? ==> r.error == KeyReused)
            && (r.Ok? ==>
                  && r.value.1
                  && DbOk(max, r.value.0)
                  && r.value.0.jobs == db.jobs[id := Completed(db.jobs[id], o, now)])
  {
    CompletionRow(max, db, id, o, now);
    var done := Finished(db, id, w, o, now);
    var row := CompletionAudit(done, id, w, o.state);
    AuditIffMoves(db, id, w, o, now);
    if row.None? {
      assert Visible(db.jobs[id], db.skills[db.jobs[id].pub]);
      JobUpdateKeepsDb(max, db, id, Completed(db.jobs[id], o, now), done.events);
    } else {
      CompletionAuditKeepsDb(max, db, id, w, o, now);
    }
  }

  // ---------- workers ----------

  lemma JudgedOk(max: nat, rec: Job, a: Assessment)
    requires StatsAccepted(a.stats) && InFlight(rec.state)
    requires a.verdict == Benign ==> HarmlessMajority(a.stats)
    requires a.verdict == Infected ==> Detected(a.stats)
    ensures ActionOk(max, rec, Finish(Judged(a)))
  {
  }

  lemma FailureOk(p: Policy, rec: Job, reply: Reply, now: Time, jitter: real)
    ensures var a := OnFailure(p, rec, reply, now, jitter); a.Abandon? || ActionOk(p.maximumAttempts, rec, a)
  {
  }

  lemma DecisionOk(p: Policy, rec: Job, at: Time, reply: Reply, now: Time, jitter: real)
    requires JobOk(p.maximumAttempts, rec) && !Terminal(rec.state)
    ensures var a := Decide(p, rec, at, reply, now, jitter);
            a.Abandon? || (ActionOk(p.maximumAttempts, rec, a) && (a.Tell? ==> rec.state in a.report.expected))
  {
    FailureOk(p, rec, reply, now, jitter);
    if reply.Analysed? && reply.raw.Some? && rec.state != PendingSubmission {
      var assessed := Assess(reply.raw);
      if assessed.Some? && StatsAccepted(assessed.value.stats) {
        VerdictMatchesEvidence(reply.raw.value);
        JudgedOk(p.maximumAttempts, rec, assessed.value);
      }
    }
  }

  /** What the outcome transaction of a worker does. Either it leaves the tables alone, or the row was exactly the
      claimed one, still under this worker's lease, and only that row changed: it is released with its attempt count
      kept. */
  ghost predicate FencedWrite(before: Db, after: Db, id: string, w: string, rec: Job) {
    || after == before
    || (&& id in before.jobs && before.jobs[id] == rec && rec.leaseOwner == Some(w)
        && id in after.jobs && after.jobs == before.jobs[id := after.jobs[id]]
        && after.jobs[id].leaseOwner.None?
        && after.jobs[id].attempts == rec.attempts
        && after.jobs[id].pub == rec.pub)
  }

  /** The one reason why an outcome can be turned away under a held lease: a completion that moves its publication
      under an idempotency key that the same actor has used before. */
  predicate Blocked(db: Db, id: string, w: string, a: Action) {
    a.Finish? && MovesPublication(db, id, a.outcome.state) &&
        !KeyUnused(db.audit, w, CompletionKey(id, a.outcome.state))
  }

  lemma CommitEffect(max: nat, db: Db, id: string, w: string, rec: Job, a: Action, now: Time)
    requires DbOk(max, db) && Fenced(max, db, w, Decided(id, rec, a)) && !a.Retry?
    ensures var r := CommitAction(db, id, w, a, now);
            && DbOk(max, Kept(db, r))
            && FencedWrite(db, Kept(db, r), id, w, rec)
            && (r.Err? ==> r.error in {LeaseLost, KeyReused})
            && (r.Err? && HoldsLease(db, id, w, now) ==> r.error == KeyReused && Blocked(db, id, w, a))
            && (r.Ok? && HoldsLease(db, id, w, now) ==> r.value != db && !a.Abandon?)
  {
    assert JobOk(max, db.jobs[id]);
    match a
    case Finish(o) =>
      if HoldsLease(db, id, w, now) {
        CompletionKeepsDb(max, db, id, w, o, now);
      }
    case Tell(r) =>
      if HoldsLease(db, id, w, now) && db.jobs[id].state in r.expected {
        ProgressKeepsDb(max, db, id, w, r, now);
      }
    case Abandon =>
  }

  /** A transaction that keeps every row, except for one that it releases or leases to an idle worker, keeps every
      worker in the middle of a run fenced. */
  lemma OthersStayFenced(max: nat, before: Db, after: Db, w: string, l: Local, id: string)
    requires Fenced(max, before, w, l)
    requires forall other | other in before.jobs && other != id ::
               other in after.jobs && after.jobs[other] == before.jobs[other]
    requires id in before.jobs ==>
               && id in after.jobs
               && after.jobs[id].attempts >= before.jobs[id].attempts
               && (after.jobs[id] == before.jobs[id] || after.jobs[id].leaseOwner != Some(w))
    ensures Fenced(max, after, w, l)
  {
  }

  lemma TablesKeepInv(p: Policy, s: System, db: Db)
    requires Inv(p, s) && DbOk(p.maximumAttempts, db)
    requires forall id | id in s.db.jobs :: id in db.jobs && db.jobs[id] == s.db.jobs[id]
    ensures Inv(p, s.(db := db))
  {
    forall w | w in s.workers
      ensures Fenced(p.maximumAttempts, db, w, s.workers[w])
    {
      OthersStayFenced(p.maximumAttempts, s.db, db, w, s.workers[w], "");
    }
  }

  /** One row is leased to an idle worker, which takes it up as its claimed record. */
  ghost predicate Leases(max: nat, s: System, after: System, w: string, id: string, now: Time, rec: Job) {
    && id in s.db.jobs && after.db.jobs == s.db.jobs[id := rec] && DbOk(max, after.db) && after.calls == s.calls
    && after.workers == s.workers[w := Claimed(id, rec, now)]
    && rec.leaseOwner == Some(w) && rec.attempts == s.db.jobs[id].attempts + 1 && !Terminal(rec.state) &&
          JobOk(max, rec)
  }

  lemma ClaimLeases(p: Policy, s: System, w: string, id: string, now: Time) returns (rec: Job)
    requires DbOk(p.maximumAttempts, s.db) && LocalOf(s, w).Idle? && IsCandidate(s.db, id, now)
    ensures Leases(p.maximumAttempts, s, ClaimStep(p, s, w, id, now), w, id, now, rec)
  {
    ClaimKeepsDb(p.maximumAttempts, s.db, id, w, now, p.leaseSeconds as real);
    rec := ClaimDue(s.db, id, w, now, p.leaseSeconds as real).value.1;
  }

  lemma LeaseKeepsWorkers(max: nat, s: System, after: System, w: string, id: string, now: Time, rec: Job)
    requires WorkersOk(max, s) && Leases(max, s, after, w, id, now, rec)
    ensures WorkersOk(max, after)
  {
    forall v | v in after.workers
      ensures Fenced(max, after.db, v, after.workers[v])
    {
      if v != w {
        OthersStayFenced(max, s.db, after.db, v, s.workers[v], id);
      }
    }
  }

  lemma ClaimKeepsInv(p: Policy, s: System, w: string, id: string, now: Time)
    requires Inv(p, s)
    ensures Inv(p, ClaimStep(p, s, w, id, now))
  {
    if LocalOf(s, w).Idle? && IsCandidate(s.db, id, now) {
      var rec := ClaimLeases(p, s, w, id, now);
      LeaseKeepsWorkers(p.maximumAttempts, s, ClaimStep(p, s, w, id, now), w, id, now, rec);
    }
  }

  lemma ActKeepsInv(p: Policy, s: System, w: string, reply: Reply, now: Time, jitter: real)
    requires Inv(p, s)
    ensures Inv(p, ActStep(p, s, w, reply, now, jitter))
  {
    var l := LocalOf(s, w);
    if l.Claimed? {
      assert Fenced(p.maximumAttempts, s.db, w, l);
      DecisionOk(p, l.rec, l.at, reply, now, jitter);
    }
  }

  lemma OthersSurviveCommit(max: nat, before: Db, after: Db, id: string, w: string, rec: Job, v: string, l: Local)
    requires Fenced(max, before, v, l) && FencedWrite(before, after, id, w, rec)
    ensures Fenced(max, after, v, l)
  {
  }

  lemma CommitKeepsInv(p: Policy, s: System, w: string, now: Time)
    requires Inv(p, s)
    ensures Inv(p, CommitStep(s, w, now))
  {
    var max := p.maximumAttempts;
    var l := LocalOf(s, w);
    if l.Decided? && !l.action.Retry? {
      assert Fenced(max, s.db, w, l);
      var db := Kept(s.db, CommitAction(s.db, l.id, w, l.action, now));
      assert DbOk(max, db) && FencedWrite(s.db, db, l.id, w, l.rec) by {
        CommitEffect(max, s.db, l.id, w, l.rec, l.action, now);
      }
      var after := CommitStep(s, w, now);
      assert after.db == db && after.workers == s.workers[w := Idle];
      forall v | v in after.workers
        ensures Fenced(max, db, v, after.workers[v])
      {
        if v != w {
          OthersSurviveCommit(max, s.db, db, l.id, w, l.rec, v, s.workers[v]);
        }
      }
    }
  }

  lemma ReadBackKeepsInv(p: Policy, s: System, w: string)
    requires Inv(p, s)
    ensures Inv(p, ReadBackStep(s, w))
  {
    var l := LocalOf(s, w);
    if l.Decided? && l.action.Retry? {
      assert Fenced(p.maximumAttempts, s.db, w, l);
    }
  }

  lemma StepKeepsInv(p: Policy, s: System, step: Step)
    requires Inv(p, s)
    ensures Inv(p, Next(p, s, step))
  {
    match step
    case Publish(u, now) =>
      if CreatePublication(s.db, u, now).Ok? {
        PublishKeepsDb(p.maximumAttempts, s.db, u, now);
        PublishKeepsJobs(p.maximumAttempts, s.db, u, now);
        TablesKeepInv(p, s, CreatePublication(s.db, u, now).value);
      }
    case Review(pub, target, actor, key) =>
      if TransitionSkill(s.db, pub, target, actor, key).Ok? {
        ReviewKeepsDb(p.maximumAttempts, s.db, pub, target, actor, key);
        TablesKeepInv(p, s, TransitionSkill(s.db, pub, target, actor, key).value);
      }
    case Claim(w, id, now) => ClaimKeepsInv(p, s, w, id, now);
    case Act(w, reply, now, jitter) => ActKeepsInv(p, s, w, reply, now, jitter);
    case ReadBack(w) => ReadBackKeepsInv(p, s, w);
    case Commit(w, now) => CommitKeepsInv(p, s, w, now);
    case Crash(w) =>
  }

  lemma {:induction false} RunKeepsInv(p: Policy, s: System, steps: seq<Step>)
    requires Inv(p, s)
    ensures Inv(p, Run(p, s, steps))
  {
    if steps != [] {
      var earlier := steps[..|steps| - 1];
      RunKeepsInv(p, s, earlier);
      StepKeepsInv(p, Run(p, s, earlier), steps[|steps| - 1]);
    }
  }

  lemma {:induction false} ReachableInv(p: Policy, steps: seq<Step>)
    ensures Inv(p, Run(p, START, steps))
  {
    RunKeepsInv(p, START, steps);
  }

  // ---------- fencing ----------

  /** Fencing. Whatever happened before, an outcome a worker commits is written against exactly the row its claim
      returned, while that row still carries its lease; every other row is untouched, and the row is released at the
      same attempt number. An outcome that does not commit changes no table, and the only reasons are a lost lease
      or an idempotency key the same actor already used. */
  lemma {:induction false} OutcomesAreFenced(p: Policy, steps: seq<Step>, w: string, now: Time)
    requires LocalOf(Run(p, START, steps), w).Decided?
    ensures var s := Run(p, START, steps);
            var l := LocalOf(s, w);
            var after := Next(p, s, Commit(w, now));
            && FencedWrite(s.db, after.db, l.id, w, l.rec)
            && (!l.action.Retry? ==>
                  var r := CommitAction(s.db, l.id, w, l.action, now);
                  r.Err? ==> r.error in {LeaseLost, KeyReused} && after.db == s.db)
  {
    ReachableInv(p, steps);
    var s := Run(p, START, steps);
    var l := LocalOf(s, w);
    assert Fenced(p.maximumAttempts, s.db, w, l);
    if !l.action.Retry? {
      CommitEffect(p.maximumAttempts, s.db, l.id, w, l.rec, l.action, now);
    }
  }

  /** What an outcome leaves when it is written: the job released, in the decided state or at the decided time. */
  ghost predicate Written(after: Db, l: Local)
    requires l.Decided?
  {
    && l.id in after.jobs && after.jobs[l.id].leaseOwner.None?
    && (l.action.Finish? ==> after.jobs[l.id].state == l.action.outcome.state)
    && (l.action.Tell? ==> after.jobs[l.id].nextAttempt == l.action.report.next)
  }

  lemma {:induction false} InTimeCommits(max: nat, db: Db, w: string, l: Local, now: Time)
    requires DbOk(max, db) && l.Decided? && !l.action.Retry? && Fenced(max, db, w, l) && HoldsLease(db, l.id, w, now)
    ensures CommitAction(db, l.id, w, l.action, now).Ok? <==> !Blocked(db, l.id, w, l.action)
    ensures CommitAction(db, l.id, w, l.action, now).Ok? ==> Written(CommitAction(db, l.id, w, l.action, now).value, l)
    ensures CommitAction(db, l.id, w, l.action, now).Err? ==>
              CommitAction(db, l.id, w, l.action, now).error == KeyReused
  {
    if l.action.Finish? {
      CompletionKeepsDb(max, db, l.id, w, l.action.outcome, now);
    }
    if l.action.Tell? {
      ProgressKeepsDb(max, db, l.id, w, l.action.report, now);
    }
  }

  /** In a state, a worker is about to write an outcome under its lease. */
  predicate InTime(s: System, w: string, now: Time) {
    LocalOf(s, w).Decided? && !LocalOf(s, w).action.Retry? && HoldsLease(s.db, LocalOf(s, w).id, w, now)
  }

  /** Its outcome commits unless it is blocked, and a blocked one changes no table. */
  ghost predicate CommitsUnlessBlocked(s: System, w: string, now: Time)
    requires LocalOf(s, w).Decided?
  {
    var l := LocalOf(s, w);
    var after := CommitStep(s, w, now).db;
    && (CommitAction(s.db, l.id, w, l.action, now).Ok? <==> !Blocked(s.db, l.id, w, l.action))
    && (if Blocked(s.db, l.id, w, l.action) then after == s.db else Written(after, l))
  }

  lemma {:induction false} InTimeFrom(p: Policy, s: System, w: string, now: Time)
    requires Inv(p, s) && InTime(s, w, now)
    ensures CommitsUnlessBlocked(s, w, now)
  {
    var l := LocalOf(s, w);
    assert Fenced(p.maximumAttempts, s.db, w, l);
    InTimeCommits(p.maximumAttempts, s.db, w, l, now);
  }

  /** When an outcome is written while the lease still holds, it commits, and releases the job as decided, if and
      only if it is not blocked by its own idempotency key; a blocked one changes no table. */
  lemma {:induction false} InTimeOutcomesCommit(p: Policy, steps: seq<Step>, w: string, now: Time)
    requires InTime(Run(p, START, steps), w, now)
    ensures CommitsUnlessBlocked(Run(p, START, steps), w, now)
  {
    ReachableInv(p, steps);
    InTimeFrom(p, Run(p, START, steps), w, now);
  }

  /** A worker is always right about who holds the lease: two workers in the middle of a run never both see their
      claimed row in the table. */
  lemma {:induction false} OneHolderPerRow(p: Policy, steps: seq<Step>, v: string, w: string)
    requires v != w
    ensures var s := Run(p, START, steps);
            var a := LocalOf(s, v);
            var b := LocalOf(s, w);
            !a.Idle? && !b.Idle? && a.id == b.id && a.id in s.db.jobs ==>
              !(s.db.jobs[a.id] == a.rec && s.db.jobs[b.id] == b.rec)
  {
    ReachableInv(p, steps);
    var s := Run(p, START, steps);
    assert Fenced(p.maximumAttempts, s.db, v, LocalOf(s, v));
    assert Fenced(p.maximumAttempts, s.db, w, LocalOf(s, w));
  }
}
