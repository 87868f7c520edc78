/** Idempotency keys of completions. When worker ids are never used by uploaders or administrators, every outcome
    that is written in time commits; when they are, one can be turned away. */
module ScanKeys {
  import opened Wrappers
  import opened ScanTables
  import opened WorkerDecisions
  import opened ScanProtocol
  import opened ScanSafety
  import opened ScanVisibility

  // ---------- one key for each job ----------

  lemma PrefixedEqual(x: string, a: string, b: string)
    requires x + a == x + b
    ensures a == b
  {
    assert (x + a)[|x|..] == a && (x + b)[|x|..] == b;
  }

  lemma SuffixedEqual(a: string, b: string, y: string)
    requires a + y == b + y
    ensures a == b
  {
    assert (a + y)[..|a|] == a && (b + y)[..|b|] == b;
  }

  /** The completion keys of two conclusive results are equal only for the same job. */
  lemma CompletionKeyInjective(a: string, s: JobState, b: string, t: JobState)
    requires Conclusive(s) && Conclusive(t) && CompletionKey(a, s) == CompletionKey(b, t)
    ensures a == b && s == t
  {
    var x, y := CompletionKey(a, s), CompletionKey(b, t);
    assert x[|x| - 1] == StateName(s)[|StateName(s)| - 1];
    assert y[|y| - 1] == StateName(t)[|StateName(t)| - 1];
    assert s == t;
    SuffixedEqual("scan:" + a + ":", "scan:" + b + ":", StateName(s));
    SuffixedEqual("scan:" + a, "scan:" + b, ":");
    PrefixedEqual("scan:", a, b);
  }

  // ---------- worker ids apart from all other actors ----------

  /** No uploader and no administrator acts under one of these ids. */
  predicate Apart(ids: set<string>, step: Step) {
    && (step.Publish? ==> step.upload.actor !in ids)
    && (step.Review? ==> step.actor !in ids)
  }

  ghost predicate AllApart(ids: set<string>, steps: seq<Step>) {
    forall step | step in steps :: Apart(ids, step)
  }

  /** The key of this row was spent by a finished job. */
  ghost predicate Spent(db: Db, row: AuditRow) {
    exists id :: id in db.jobs && Conclusive(db.jobs[id].state) && row.key == CompletionKey(id, db.jobs[id].state)
  }

  ghost predicate KeysSpent(ids: set<string>, db: Db) {
    forall r | r in db.audit && r.actor in ids :: Spent(db, r)
  }

  /** Every audit row is old, or written by an actor outside, or spends the key of a job that is now finished. */
  ghost predicate RowsAdded(ids: set<string>, before: Db, after: Db) {
    forall r | r in after.audit && r.actor in ids :: r in before.audit || Spent(after, r)
  }

  lemma SpentStays(before: Db, after: Db, r: AuditRow)
    requires Evolves(before, after) && Spent(before, r)
    ensures Spent(after, r)
  {
    var id :| id in before.jobs && Conclusive(before.jobs[id].state) &&
        r.key == CompletionKey(id, before.jobs[id].state);
    assert after.jobs[id] == before.jobs[id];
  }

  lemma AddedKeepsSpent(ids: set<string>, before: Db, after: Db)
    requires KeysSpent(ids, before) && Evolves(before, after) && RowsAdded(ids, before, after)
    ensures KeysSpent(ids, after)
  {
    forall r | r in after.audit && r.actor in ids
      ensures Spent(after, r)
    {
      if r in before.audit {
        SpentStays(before, after, r);
      }
    }
  }

  lemma InsertAdds(db: Db, row: AuditRow)
    requires InsertAudit(db, row).Ok?
    ensures InsertAudit(db, row).value.audit == db.audit + [row] && InsertAudit(db, row).value.jobs == db.jobs
  {
  }

  lemma PublishAdds(ids: set<string>, db: Db, u: Upload, now: Time)
    requires u.actor !in ids
    ensures RowsAdded(ids, db, Kept(db, CreatePublication(db, u, now)))
  {
    if CreatePublication(db, u, now).Ok? {
      PublishEffect(db, u, now);
    }
  }

  lemma ReviewAdds(ids: set<string>, db: Db, pub: string, target: SkillStatus, actor: string, key: string)
    requires actor !in ids
    ensures RowsAdded(ids, db, Kept(db, TransitionSkill(db, pub, target, actor, key)))
  {
    if TransitionSkill(db, pub, target, actor, key).Ok? {
      InsertAdds(db, AuditRow(pub, db.skills[pub].revision + 1, actor, PriorStatus(target), target, key));
    }
  }

  lemma CompletionAdds(ids: set<string>, db: Db, id: string, w: string, o: Outcome, now: Time)
    requires Complete(db, id, w, o, now).Ok?
    ensures RowsAdded(ids, db, Complete(db, id, w, o, now).value.0)
  {
    var after := Complete(db, id, w, o, now).value.0;
    if after.audit != db.audit {
      var done := Finished(db, id, w, o, now);
      var row := CompletionAudit(done, id, w, o.state).value;
      InsertAdds(done, row);
      assert after.jobs[id].state == o.state && Conclusive(o.state);
      assert Spent(after, row);
    }
  }

  lemma CommitAdds(ids: set<string>, db: Db, id: string, w: string, a: Action, now: Time)
    ensures RowsAdded(ids, db, Kept(db, CommitAction(db, id, w, a, now)))
  {
    if a.Finish? && Complete(db, id, w, a.outcome, now).Ok? {
      CompletionAdds(ids, db, id, w, a.outcome, now);
    }
  }

  lemma StepAdds(p: Policy, ids: set<string>, s: System, step: Step)
    requires Apart(ids, step)
    ensures RowsAdded(ids, s.db, Next(p, s, step).db)
  {
    match step
    case Publish(u, now) => PublishAdds(ids, s.db, u, now);
    case Review(pub, target, actor, key) => ReviewAdds(ids, s.db, pub, target, actor, key);
    case Commit(w, now) =>
      var l := LocalOf(s, w);
      if l.Decided? {
        CommitAdds(ids, s.db, l.id, w, l.action, now);
      }
    case _ =>
  }

  lemma {:induction false} RunSpends(p: Policy, ids: set<string>, steps: seq<Step>)
    requires AllApart(ids, steps)
    ensures KeysSpent(ids, Run(p, START, steps).db)
  {
    if steps != [] {
      var earlier, last := steps[..|steps| - 1], steps[|steps| - 1];
      RunSpends(p, ids, earlier);
      var s := Run(p, START, earlier);
      StepAdds(p, ids, s, last);
      StepEvolves(p, s, last);
      AddedKeepsSpent(ids, s.db, Next(p, s, last).db);
    }
  }

  lemma SpentIsFinished(ids: set<string>, db: Db, id: string, w: string, s: JobState)
    requires KeysSpent(ids, db) && w in ids && id in db.jobs && Conclusive(s) &&
               !KeyUnused(db.audit, w, CompletionKey(id, s))
    ensures Terminal(db.jobs[id].state)
  {
    var r :| r in db.audit && r.actor == w && r.key == CompletionKey(id, s);
    var other :| other in db.jobs && Conclusive(db.jobs[other].state) &&
        r.key == CompletionKey(other, db.jobs[other].state);
    CompletionKeyInjective(id, s, other, db.jobs[other].state);
  }

  lemma NothingBlocked(p: Policy, ids: set<string>, s: System, w: string, now: Time)
    requires Inv(p, s) && KeysSpent(ids, s.db) && w in ids && InTime(s, w, now)
    ensures !Blocked(s.db, LocalOf(s, w).id, w, LocalOf(s, w).action)
  {
    var l := LocalOf(s, w);
    assert JobOk(p.maximumAttempts, s.db.jobs[l.id]);
    assert !Terminal(s.db.jobs[l.id].state);
    if Blocked(s.db, l.id, w, l.action) {
      SpentIsFinished(ids, s.db, l.id, w, l.action.outcome.state);
    }
  }

  /** When no uploader and no administrator ever acted under the worker's id, its key is never in the way: every
      outcome written while the lease holds commits and releases the job as decided. */
  lemma {:induction false} SeparateWorkersCommit(p: Policy, ids: set<string>, steps: seq<Step>, w: string, now: Time)
    requires AllApart(ids, steps) && w in ids && InTime(Run(p, START, steps), w, now)
    ensures var s := Run(p, START, steps);
            CommitAction(s.db, LocalOf(s, w).id, w, LocalOf(s, w).action, now).Ok? &&
                Written(Next(p, s, Commit(w, now)).db, LocalOf(s, w))
  {
    InTimeOutcomesCommit(p, steps, w, now);
    RunSpends(p, ids, steps);
    ReachableInv(p, steps);
    NothingBlocked(p, ids, Run(p, START, steps), w, now);
  }
}
