/** The two repositories over one database, as an object whose tables change in place: each method runs one
    transaction, and an error rolls it back. */
module ScanRepository {
  import opened Wrappers
  import opened ScanEvidence
  import opened ScanTables

  const MAX_WORKER_ID: nat := 255

  /** Among finitely many rows, if one is claimable then one of them is first in the queue. */
  lemma {:induction false} CandidateExists(db: Db, now: Time, ids: set<string>)
    requires ids <= db.jobs.Keys && ids != {}
    requires forall id | id in ids :: Claimable(db.jobs[id], now)
    ensures exists id :: id in ids && forall other | other in ids :: QueuedNoLater(db.jobs[id], db.jobs[other])
  {
    var id :| id in ids;
    var rest := ids - {id};
    if rest == {} {
      assert ids == {id};
    } else {
      CandidateExists(db, now, rest);
      var first :| first in rest && forall other | other in rest :: QueuedNoLater(db.jobs[first], db.jobs[other]);
      var best := if QueuedNoLater(db.jobs[id], db.jobs[first]) then id else first;
      forall other | other in ids
        ensures QueuedNoLater(db.jobs[best], db.jobs[other])
      {
        assert other == id || other in rest;
      }
    }
  }

  class Repository {
    var jobs: map<string, Job>
    var skills: map<string, Skill>
    var audit: seq<AuditRow>
    var events: seq<Event>

    function Tables(): Db
      reads this
    {
      Db(jobs, skills, audit, events)
    }

    constructor ()
      ensures Tables() == EMPTY
    {
      jobs, skills, audit, events := map[], map[], [], [];
    }

    method Restore(saved: Db)
      modifies this
      ensures Tables() == saved
    {
      jobs, skills, audit, events := saved.jobs, saved.skills, saved.audit, saved.events;
    }

    /** Insert an audit row; the triggers run inside the same transaction. */
    method InsertRow(row: AuditRow) returns (r: Result<(), DbError>)
      modifies this
      ensures var spec := InsertAudit(old(Tables()), row);
              if spec.Ok? then r.Ok? && Tables() == spec.value else r == Err(spec.error) && Tables() == old(Tables())
    {
      if !KeyUnused(audit, row.actor, row.key) {
        return Err(KeyReused);
      }
      if !NumberUnused(audit, row.pub, row.number) || !AuditInsertAllowed(Tables(), row) {
        return Err(GuardAbort);
      }
      var saved := Tables();
      audit := audit + [row];
      if row.prior.Some? {
        var before := skills[row.pub];
        var updated := Applied(before, row);
        if !SkillUpdateAllowed(audit, row.pub, before, updated) {
          Restore(saved);
          return Err(GuardAbort);
        }
        skills := skills[row.pub := updated];
      }
      return Ok(());
    }

    method Publish(u: Upload, now: Time) returns (r: Result<(), DbError>)
      modifies this
      ensures var spec := CreatePublication(old(Tables()), u, now);
              if spec.Ok? then r.Ok? && Tables() == spec.value else r == Err(spec.error) && Tables() == old(Tables())
    {
      if u.status !in {PendingReview, Listed} || (u.tierCd && u.status == Listed) ||
          (u.scan.Some? && u.status != PendingReview) {
        return Err(InvalidTransition);
      }
      if u.pub in skills || IdentityTaken(Tables(), u.identity) {
        return Err(Duplicate);
      }
      var saved := Tables();
      if u.scan.Some? {
        if u.scan.value in jobs || exists id :: id in jobs && jobs[id].pub == u.pub {
          return Err(Duplicate);
        }
        jobs := jobs[u.scan.value := FreshJob(u.pub, now)];
        events := events + [AdmissionEvent(u.scan.value)];
      }
      r := InsertRow(AuditRow(u.pub, 1, u.actor, None, u.status, u.key));
      if r.Err? {
        Restore(saved);
        return;
      }
      if !InitialSkillAllowed(Tables(), u) {
        Restore(saved);
        return Err(GuardAbort);
      }
      skills := skills[u.pub := Skill(u.identity, u.status, 1, u.tierCd, u.scan.Some?, None)];
    }

    method Transition(pub: string, target: SkillStatus, actor: string, key: string) returns (r: Result<(), DbError>)
      modifies this
      ensures var spec := TransitionSkill(old(Tables()), pub, target, actor, key);
              if spec.Ok? then r.Ok? && Tables() == spec.value else r == Err(spec.error) && Tables() == old(Tables())
    {
      var prior := PriorStatus(target);
      if prior.None? {
        return Err(InvalidTransition);
      }
      if pub !in skills {
        return Err(NotFound);
      }
      if skills[pub].status != prior.value {
        return Err(InvalidTransition);
      }
      r := InsertRow(AuditRow(pub, skills[pub].revision + 1, actor, prior, target, key));
    }

    /** Lease the first due job. No job is due exactly when nothing is returned. */
    method Claim(owner: string, now: Time, leaseSeconds: int) returns (r: Result<Option<(string, Job)>, DbError>)
      modifies this
      ensures !(0 < |owner| <= MAX_WORKER_ID && 1 <= leaseSeconds <= 300) ==>
                r == Err(InvalidInput) && Tables() == old(Tables())
      ensures 0 < |owner| <= MAX_WORKER_ID && 1 <= leaseSeconds <= 300 ==>
                (r == Ok(None) <==> forall id | id in old(jobs) :: !Claimable(old(jobs)[id], now))
      ensures r == Ok(None) ==> Tables() == old(Tables())
      ensures r.Ok? && r.value.Some? ==>
                var (id, rec) := r.value.value;
                && IsCandidate(old(Tables()), id, now)
                && ScanTables.ClaimDue(old(Tables()), id, owner, now, leaseSeconds as real) == Ok((Tables(), rec))
      ensures r.Err? ==> Tables() == old(Tables())
      ensures r.Err? && r.error != InvalidInput ==>
                exists id :: IsCandidate(old(Tables()), id, now) &&
                             ScanTables.ClaimDue(old(Tables()), id, owner, now, leaseSeconds as real) == Err(r.error)
    {
      if !(0 < |owner| <= MAX_WORKER_ID) || !(1 <= leaseSeconds <= 300) {
        return Err(InvalidInput);
      }
      var due := set id | id in jobs && Claimable(jobs[id], now);
      if due == {} {
        assert forall id | id in jobs :: Claimable(jobs[id], now) ==> id in due;
        return Ok(None);
      }
      CandidateExists(Tables(), now, due);
      var id :| id in due && forall other | other in due :: QueuedNoLater(jobs[id], jobs[other]);
      assert IsCandidate(Tables(), id, now);
      ghost var taken := ScanTables.ClaimDue(Tables(), id, owner, now, leaseSeconds as real);
      var row := Leased(jobs[id], owner, now, leaseSeconds as real);
      if !JobUpdateAllowed(jobs[id], row) {
        assert taken == Err(GuardAbort);
        return Err(GuardAbort);
      }
      jobs := jobs[id := row];
      events := events + [LeaseEvent(id, row, owner)];
      return Ok(Some((id, row)));
    }

    /** The read transaction of a retry. */
    method Get(id: string) returns (r: Result<Job, DbError>)
      ensures r == if id in jobs then Ok(jobs[id]) else Err(NotFound)
    {
      if id !in jobs {
        return Err(NotFound);
      }
      return Ok(jobs[id]);
    }

    method Record(id: string, owner: string, report: Report, now: Time) returns (r: Result<(), DbError>)
      modifies this
      ensures var spec := ScanTables.RecordProgress(old(Tables()), id, owner, report, now);
              if spec.Ok? then r.Ok? && Tables() == spec.value else r == Err(spec.error) && Tables() == old(Tables())
    {
      if !HoldsLease(Tables(), id, owner, now) || jobs[id].state !in report.expected {
        return Err(LeaseLost);
      }
      var row := Reported(jobs[id], report, now);
      if !JobUpdateAllowed(jobs[id], row) {
        return Err(GuardAbort);
      }
      jobs := jobs[id := row];
      events := events + [Event(id, Progress, report.state, row.attempts, None, map[], Some(owner))];
      return Ok(());
    }

    /** Finish a job and, in the same transaction, move its publication. */
    method Finish(id: string, owner: string, outcome: Outcome, now: Time) returns (r: Result<bool, DbError>)
      modifies this
      ensures var spec := ScanTables.Complete(old(Tables()), id, owner, outcome, now);
              if spec.Ok? then r == Ok(spec.value.1) && Tables() == spec.value.0
              else r == Err(spec.error) && Tables() == old(Tables())
    {
      if !Terminal(outcome.state) || !StatsAccepted(outcome.stats) {
        return Err(InvalidInput);
      }
      if !HoldsLease(Tables(), id, owner, now) || Terminal(jobs[id].state) {
        if id in jobs && Terminal(jobs[id].state) {
          return Ok(false);
        }
        return Err(LeaseLost);
      }
      var row := Completed(jobs[id], outcome, now);
      if !JobUpdateAllowed(jobs[id], row) {
        return Err(GuardAbort);
      }
      var saved := Tables();
      jobs := jobs[id := row];
      events := events + [Event(id, Completion, outcome.state, row.attempts, Some(outcome.verdict), outcome.stats,
          Some(owner))];
      var transition := CompletionAudit(Tables(), id, owner, outcome.state);
      if transition.None? {
        return Ok(true);
      }
      var inserted := InsertRow(transition.value);
      if inserted.Err? {
        Restore(saved);
        return Err(inserted.error);
      }
      return Ok(true);
    }
  }
}
