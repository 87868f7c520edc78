/** Which publications can be seen, over every interleaving of scanning and review. */
module ScanVisibility {
  import opened Wrappers
  import opened ScanEvidence
  import opened ScanTables
  import opened WorkerDecisions
  import opened ScanProtocol
  import opened ScanSafety

  /** What only ever grows: finished jobs keep their row, rejected publications stay rejected, no row disappears, and a
      publication keeps its authority and its scan requirement. */
  ghost predicate Evolves(before: Db, after: Db) {
    && (forall id | id in before.jobs ::
          && id in after.jobs
          && after.jobs[id].pub == before.jobs[id].pub
          && before.jobs[id].attempts <= after.jobs[id].attempts
          && (Terminal(before.jobs[id].state) ==> after.jobs[id] == before.jobs[id]))
    && (forall pub | pub in before.skills ::
          && pub in after.skills
          && after.skills[pub].identity == before.skills[pub].identity
          && after.skills[pub].tierCd == before.skills[pub].tierCd
          && after.skills[pub].requiresScan == before.skills[pub].requiresScan
          && (before.skills[pub].status in {Rejected, Unlisted} ==> after.skills[pub] == before.skills[pub]))
  }

  lemma InsertAuditEvolves(db: Db, row: AuditRow)
    requires InsertAudit(db, row).Ok?
    ensures Evolves(db, InsertAudit(db, row).value)
    ensures InsertAudit(db, row).value.jobs == db.jobs
  {
  }

  lemma CommitEvolves(db: Db, id: string, w: string, a: Action, now: Time)
    ensures Evolves(db, Kept(db, CommitAction(db, id, w, a, now)))
  {
    if a.Finish? && Complete(db, id, w, a.outcome, now).Ok? && HoldsLease(db, id, w, now) &&
        !Terminal(db.jobs[id].state) {
      var done := Finished(db, id, w, a.outcome, now);
      var row := CompletionAudit(done, id, w, a.outcome.state);
      if row.Some? {
        InsertAuditEvolves(done, row.value);
      }
    }
  }

  lemma PublishEvolves(db: Db, u: Upload, now: Time)
    ensures Evolves(db, Kept(db, CreatePublication(db, u, now)))
  {
    if CreatePublication(db, u, now).Ok? {
      PublishEffect(db, u, now);
    }
  }

  lemma ReviewEvolves(db: Db, pub: string, target: SkillStatus, actor: string, key: string)
    ensures Evolves(db, Kept(db, TransitionSkill(db, pub, target, actor, key)))
  {
    if TransitionSkill(db, pub, target, actor, key).Ok? {
      InsertAuditEvolves(db, AuditRow(pub, db.skills[pub].revision + 1, actor, PriorStatus(target), target, key));
    }
  }

  lemma ClaimEvolves(p: Policy, s: System, w: string, id: string, now: Time)
    ensures Evolves(s.db, ClaimStep(p, s, w, id, now).db)
  {
  }

  lemma StepEvolves(p: Policy, s: System, step: Step)
    ensures Evolves(s.db, Next(p, s, step).db)
  {
    NextTables(p, s, step);
    TablesEvolve(p, s, step);
  }

  lemma TablesEvolve(p: Policy, s: System, step: Step)
    ensures Evolves(s.db, NextDb(p, s, step))
  {
    match step
    case Publish(u, now) => PublishEvolves(s.db, u, now);
    case Review(pub, target, actor, key) => ReviewEvolves(s.db, pub, target, actor, key);
    case Claim(w, id, now) => ClaimEvolves(p, s, w, id, now);
    case Commit(w, now) =>
      var l := LocalOf(s, w);
      if l.Decided? {
        CommitEvolves(s.db, l.id, w, l.action, now);
      }
    case _ =>
  }

  lemma {:induction false} RunEvolves(p: Policy, s: System, steps: seq<Step>)
    ensures Evolves(s.db, Run(p, s, steps).db)
  {
    if steps != [] {
      var earlier := steps[..|steps| - 1];
      RunEvolves(p, s, earlier);
      StepEvolves(p, Run(p, s, earlier), steps[|steps| - 1]);
    }
  }

  // ---------- identities ----------

  ghost predicate IdentitiesUnique(db: Db) {
    forall p, q | p in db.skills && q in db.skills && p != q ::
        !SameIdentity(db.skills[p].identity, db.skills[q].identity)
  }

  ghost predicate NothingPublished(before: Db, after: Db) {
    after.skills.Keys == before.skills.Keys
  }

  lemma InsertPublishesNothing(db: Db, row: AuditRow)
    requires InsertAudit(db, row).Ok?
    ensures NothingPublished(db, InsertAudit(db, row).value)
  {
  }

  lemma CommitPublishesNothing(db: Db, id: string, w: string, a: Action, now: Time)
    ensures NothingPublished(db, Kept(db, CommitAction(db, id, w, a, now)))
  {
    if a.Finish? && Complete(db, id, w, a.outcome, now).Ok? && HoldsLease(db, id, w, now) &&
        !Terminal(db.jobs[id].state) {
      var done := Finished(db, id, w, a.outcome, now);
      var row := CompletionAudit(done, id, w, a.outcome.state);
      if row.Some? {
        InsertPublishesNothing(done, row.value);
      }
    }
  }

  lemma StepPublishesNothing(p: Policy, s: System, step: Step)
    requires !step.Publish?
    ensures NothingPublished(s.db, Next(p, s, step).db)
  {
    match step
    case Review(pub, target, actor, key) =>
      if TransitionSkill(s.db, pub, target, actor, key).Ok? {
        InsertPublishesNothing(s.db,
            AuditRow(pub, s.db.skills[pub].revision + 1, actor, PriorStatus(target), target, key));
      }
    case Commit(w, now) =>
      var l := LocalOf(s, w);
      if l.Decided? {
        CommitPublishesNothing(s.db, l.id, w, l.action, now);
      }
    case _ =>
  }

  lemma PublishKeepsIdentities(db: Db, u: Upload, now: Time)
    requires IdentitiesUnique(db)
    ensures IdentitiesUnique(Kept(db, CreatePublication(db, u, now)))
  {
    if CreatePublication(db, u, now).Ok? {
      PublishEffect(db, u, now);
    }
  }

  lemma EvolvedIdentities(before: Db, after: Db)
    requires IdentitiesUnique(before) && Evolves(before, after) && NothingPublished(before, after)
    ensures IdentitiesUnique(after)
  {
  }

  /** No name and version is ever published twice, nor an archive under two publications. */
  lemma {:induction false} PublicationsAreUnique(p: Policy, steps: seq<Step>)
    ensures IdentitiesUnique(Run(p, START, steps).db)
  {
    if steps != [] {
      var earlier, last := steps[..|steps| - 1], steps[|steps| - 1];
      var s := Run(p, START, earlier);
      PublicationsAreUnique(p, earlier);
      if last.Publish? {
        PublishKeepsIdentities(s.db, last.upload, last.now);
      } else {
        StepEvolves(p, s, last);
        StepPublishesNothing(p, s, last);
        EvolvedIdentities(s.db, Next(p, s, last).db);
      }
    }
  }

  /** In every reachable state a publication that waits for its scan is pending or rejected, a malicious result has
      rejected it, and a clean result without Tier C/D authority has decided it. Conversely a scanned publication
      that is or was listed has persisted evidence that is not malicious. */
  lemma {:induction false} VisibilityFollowsEvidence(p: Policy, steps: seq<Step>, pub: string)
    ensures var db := Run(p, START, steps).db;
            pub in db.skills && db.skills[pub].requiresScan ==>
              exists id ::
                && id in db.jobs && db.jobs[id].pub == pub
                && (!Terminal(db.jobs[id].state) ==> Withheld(db.skills[pub].status))
                && (db.jobs[id].state == JobState.Malicious ==> db.skills[pub].status == Rejected)
                && (db.jobs[id].state == JobState.Clean && !db.skills[pub].tierCd ==>
                      db.skills[pub].status != PendingReview)
                && (db.skills[pub].status in {Listed, Unlisted} ==> Listable(db.jobs[id].state))
  {
    ReachableInv(p, steps);
    var db := Run(p, START, steps).db;
    if pub in db.skills && db.skills[pub].requiresScan {
      assert HasJob(db, pub);
      var id :| id in db.jobs && db.jobs[id].pub == pub;
      assert Visible(db.jobs[id], db.skills[pub]);
    }
  }

  /** A malicious result is final: whatever happens afterwards, the job and the rejection stay. */
  lemma {:induction false} MaliciousStaysRejected(p: Policy, steps: seq<Step>, later: seq<Step>, id: string)
    requires id in Run(p, START, steps).db.jobs
    requires Run(p, START, steps).db.jobs[id].state == JobState.Malicious
    ensures var s := Run(p, START, steps).db;
            var t := Run(p, START, steps + later).db;
            && id in t.jobs && t.jobs[id] == s.jobs[id]
            && t.jobs[id].pub in t.skills && t.skills[t.jobs[id].pub].status == Rejected
  {
    RunAppends(p, START, steps, later);
    ReachableInv(p, steps);
    ReachableInv(p, steps + later);
    RunEvolves(p, Run(p, START, steps), later);
    var t := Run(p, START, steps + later).db;
    assert Visible(t.jobs[id], t.skills[t.jobs[id].pub]);
  }

  lemma AuditMoves(db: Db, row: AuditRow)
    requires InsertAudit(db, row).Ok? && row.prior.Some?
    ensures row.pub in db.skills
    ensures InsertAudit(db, row).value.skills == db.skills[row.pub := Applied(db.skills[row.pub], row)]
    ensures InsertAudit(db, row).value.jobs == db.jobs
  {
  }

  /** How a completion moves its publication. */
  lemma CompletionMoves(db: Db, id: string, w: string, o: Outcome, now: Time) returns (n: Skill)
    requires Complete(db, id, w, o, now).Ok? && Complete(db, id, w, o, now).value.0.skills != db.skills
    ensures id in db.jobs && db.jobs[id].pub in db.skills && Conclusive(o.state)
    ensures var after := Complete(db, id, w, o, now).value.0;
            var sk := db.skills[db.jobs[id].pub];
            && after.jobs == db.jobs[id := Completed(db.jobs[id], o, now)]
            && sk.status == PendingReview
            && after.skills == db.skills[db.jobs[id].pub := n]
            && (o.state == JobState.Clean ==> n.status == Listed && !sk.tierCd)
            && (o.state == JobState.Malicious ==> n.status == Rejected)
  {
    var done := Finished(db, id, w, o, now);
    var row := CompletionAudit(done, id, w, o.state).value;
    AuditMoves(done, row);
    n := Applied(db.skills[row.pub], row);
  }

  /** What justifies a change of visibility made by a worker's outcome for job `id`. */
  ghost predicate Justified(before: Db, after: Db, id: string, pub: string) {
    && pub in before.skills && pub in after.skills && id in after.jobs && after.jobs[id].pub == pub
    && before.skills[pub].status == PendingReview
    && (|| (&& after.skills[pub].status == Listed
            && !before.skills[pub].tierCd
            && after.jobs[id].state == JobState.Clean
            && HarmlessMajority(after.jobs[id].stats))
        || (after.skills[pub].status == Rejected && after.jobs[id].state == JobState.Malicious))
  }

  lemma CompletionJustified(max: nat, db: Db, id: string, w: string, rec: Job, o: Outcome, now: Time, pub: string)
    requires ActionOk(max, rec, Finish(o))
    requires Complete(db, id, w, o, now).Ok? && pub in db.skills && pub in Complete(db, id, w, o, now).value.0.skills
    requires Complete(db, id, w, o, now).value.0.skills[pub].status != db.skills[pub].status
    ensures Justified(db, Complete(db, id, w, o, now).value.0, id, pub)
  {
    var n := CompletionMoves(db, id, w, o, now);
  }

  /** A worker lists a publication only if it carries no Tier C/D authority and the evidence persisted with it shows
      zero malicious and zero suspicious detections and strictly more harmless results than inconclusive ones. The
      only other change of visibility a worker makes is to reject its own pending publication. */
  lemma {:induction false} AutomaticListing(p: Policy, steps: seq<Step>, w: string, now: Time, pub: string)
    requires pub in Run(p, START, steps).db.skills
    ensures var s := Run(p, START, steps);
            var after := Next(p, s, Commit(w, now)).db;
            && pub in after.skills
            && (after.skills[pub].status != s.db.skills[pub].status ==>
                  LocalOf(s, w).Decided? && Justified(s.db, after, LocalOf(s, w).id, pub))
  {
    ReachableInv(p, steps);
    var s := Run(p, START, steps);
    var l := LocalOf(s, w);
    StepEvolves(p, s, Commit(w, now));
    var after := Next(p, s, Commit(w, now)).db;
    if after.skills[pub].status != s.db.skills[pub].status {
      assert Fenced(p.maximumAttempts, s.db, w, l);
      CompletionJustified(p.maximumAttempts, s.db, l.id, w, l.rec, l.action.outcome, now, pub);
    }
  }

  /** The review queue holds exactly the publications an administrator can approve now: a pending publication is in
      it if and only if approving it under an unused idempotency key commits. */
  lemma {:induction false} QueueIsApprovable(p: Policy, steps: seq<Step>, pub: string, actor: string, key: string)
    requires KeyUnused(Run(p, START, steps).db.audit, actor, key)
    ensures var db := Run(p, START, steps).db;
            InReviewQueue(db, pub) <==> TransitionSkill(db, pub, Listed, actor, key).Ok?
  {
    ReachableInv(p, steps);
    var db := Run(p, START, steps).db;
    if pub in db.skills && db.skills[pub].status == PendingReview {
      TransitionCommitsIff(db, AuditRow(pub, db.skills[pub].revision + 1, actor, Some(PendingReview), Listed, key));
      if db.skills[pub].requiresScan {
        assert HasJob(db, pub);
      } else {
        forall id | id in db.jobs
          ensures db.jobs[id].pub != pub
        {
          assert Visible(db.jobs[id], db.skills[db.jobs[id].pub]);
        }
      }
    }
  }
}
