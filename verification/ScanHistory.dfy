/** The append-only histories: replaying them gives back the current rows, and they bound what ever happened. */
module ScanHistory {
  import opened Wrappers
  import opened ScanEvidence
  import opened ScanTables
  import opened WorkerDecisions
  import opened ScanProtocol
  import opened ScanSafety

  // ---------- replaying scan events ----------

  /** The part of a job row its events determine. */
  datatype JobView = JobView(state: JobState, attempts: nat, verdict: Option<string>, stats: Stats)

  function ViewOf(j: Job): JobView {
    JobView(j.state, j.attempts, j.verdict, j.stats)
  }

  /** One event: admission starts a view, a lease counts an attempt, a report moves the state, a completion fixes
      the result. Anything else is not a history of one job. */
  function ReplayEvent(v: Option<JobView>, e: Event): Option<JobView> {
    match e.kind
    case Admission => if v.None? then Some(JobView(e.state, 0, None, map[])) else None
    case Lease => if v.Some? && !Terminal(v.value.state) then Some(v.value.(attempts := v.value.attempts + 1)) else None
    case Progress => if v.Some? && !Terminal(v.value.state) then Some(v.value.(state := e.state)) else None
    case Completion =>
      if v.Some? && !Terminal(v.value.state) then Some(JobView(e.state, v.value.attempts, e.verdict, e.stats)) else None
  }

  function Replay(events: seq<Event>, id: string): Option<JobView> {
    if events == [] then None
    else
      var e := events[|events| - 1];
      var v := Replay(events[..|events| - 1], id);
      if e.job == id then ReplayEvent(v, e) else v
  }

  /** Events of one job at one attempt number: leases, or outcomes (reports and completions). */
  function CountAt(events: seq<Event>, id: string, outcomes: bool, attempt: nat): nat {
    if events == [] then 0
    else
      var e := events[|events| - 1];
      CountAt(events[..|events| - 1], id, outcomes, attempt) +
      (if e.job == id && e.attempts == attempt &&
          e.kind in (if outcomes then {Progress, Completion} else {Lease}) then 1 else 0)
  }

  /** All events of one job, and its completions. */
  function Total(events: seq<Event>, id: string): nat {
    if events == [] then 0
    else Total(events[..|events| - 1], id) + (if events[|events| - 1].job == id then 1 else 0)
  }

  function Completions(events: seq<Event>, id: string): nat {
    if events == [] then 0
    else
      var e := events[|events| - 1];
      Completions(events[..|events| - 1], id) + (if e.job == id && e.kind == Completion then 1 else 0)
  }

  lemma Append(events: seq<Event>, e: Event)
    ensures (events + [e])[..|events + [e]| - 1] == events && (events + [e])[|events + [e]| - 1] == e
  {
  }

  /** The history of one job row. */
  ghost predicate JobHistory(events: seq<Event>, id: string, j: Job) {
    && Replay(events, id) == Some(ViewOf(j))
    && (forall a: nat :: CountAt(events, id, false, a) == if 1 <= a <= j.attempts then 1 else 0)
    && (forall a: nat :: CountAt(events, id, true, a) <= if 1 <= a <= j.attempts then 1 else 0)
    && (j.leaseOwner.Some? ==> CountAt(events, id, true, j.attempts) == 0)
    && Completions(events, id) == (if Terminal(j.state) then 1 else 0)
    && Total(events, id) <= 1 + 2 * j.attempts - (if j.leaseOwner.Some? then 1 else 0)
  }

  ghost predicate NoHistory(events: seq<Event>, id: string) {
    && Replay(events, id) == None
    && (forall a: nat, o: bool :: CountAt(events, id, o, a) == 0)
    && Completions(events, id) == 0
    && Total(events, id) == 0
  }

  ghost predicate EventsOk(db: Db) {
    && (forall id | id in db.jobs :: JobHistory(db.events, id, db.jobs[id]))
    && (forall id | id !in db.jobs :: NoHistory(db.events, id))
  }

  /** One event that records the change of one job row. */
  ghost predicate Records(before: Db, after: Db, e: Event) {
    && e.job in after.jobs
    && after.events == before.events + [e]
    && after.jobs == before.jobs[e.job := after.jobs[e.job]]
    && var n := after.jobs[e.job];
       match e.kind
       case Admission => e.job !in before.jobs && ViewOf(n) == JobView(e.state, 0, None, map[]) && e.attempts == 0 &&
           n.leaseOwner.None?
                         && !Terminal(n.state)
       case Lease =>
         && e.job in before.jobs && !Terminal(before.jobs[e.job].state)
         && ViewOf(n) == ViewOf(before.jobs[e.job]).(attempts := before.jobs[e.job].attempts + 1)
         && e.attempts == n.attempts && n.leaseOwner.Some?
       case Progress =>
         && e.job in before.jobs && !Terminal(before.jobs[e.job].state) && !Terminal(n.state)
         && before.jobs[e.job].leaseOwner.Some? && n.leaseOwner.None? && before.jobs[e.job].attempts >= 1
         && ViewOf(n) == ViewOf(before.jobs[e.job]).(state := e.state) && e.attempts == n.attempts
       case Completion =>
         && e.job in before.jobs && !Terminal(before.jobs[e.job].state) && Terminal(n.state)
         && before.jobs[e.job].leaseOwner.Some? && n.leaseOwner.None? && before.jobs[e.job].attempts >= 1
         && ViewOf(n) == JobView(e.state, before.jobs[e.job].attempts, e.verdict, e.stats) && e.attempts == n.attempts
  }

  lemma OtherHistory(events: seq<Event>, e: Event, id: string)
    requires e.job != id
    ensures Replay(events + [e], id) == Replay(events, id)
    ensures forall a: nat, o: bool :: CountAt(events + [e], id, o, a) == CountAt(events, id, o, a)
    ensures Completions(events + [e], id) == Completions(events, id) && Total(events + [e], id) == Total(events, id)
  {
    Append(events, e);
  }

  lemma RecordedHistory(before: Db, after: Db, e: Event)
    requires Records(before, after, e)
    requires if e.job in before.jobs then JobHistory(before.events, e.job, before.jobs[e.job])
               else NoHistory(before.events, e.job)
    ensures JobHistory(after.events, e.job, after.jobs[e.job])
  {
    Append(before.events, e);
    var id := e.job;
    forall a: nat, o: bool
      ensures CountAt(after.events, id, o, a) == CountAt(before.events, id, o, a) +
                (if e.attempts == a && e.kind in (if o then {Progress, Completion} else {Lease}) then 1 else 0)
    {
    }
  }

  lemma RecordKeepsEvents(before: Db, after: Db, e: Event)
    requires EventsOk(before) && Records(before, after, e)
    ensures EventsOk(after)
  {
    RecordedHistory(before, after, e);
    forall id | id != e.job
      ensures if id in after.jobs then JobHistory(after.events, id, after.jobs[id]) else NoHistory(after.events, id)
    {
      OtherHistory(before.events, e, id);
    }
  }

  // ---------- replaying the transition audit ----------

  /** The part of a publication its audit determines. */
  datatype SkillView = SkillView(status: SkillStatus, revision: nat, approvedBy: Option<string>)

  /** One audit row: it must continue the previous one. */
  function ReplayRow(v: Option<SkillView>, r: AuditRow): Option<SkillView> {
    if r.prior.None? then (if v.None? && r.number == 1 then Some(SkillView(r.next, 1, None)) else None)
    else if v.None? || v.value.status != r.prior.value || v.value.revision + 1 != r.number then None
    else Some(SkillView(r.next, r.number, if r.next == Listed then Some(r.actor) else v.value.approvedBy))
  }

  function ReplayAudit(audit: seq<AuditRow>, pub: string): Option<SkillView> {
    if audit == [] then None
    else
      var r := audit[|audit| - 1];
      var v := ReplayAudit(audit[..|audit| - 1], pub);
      if r.pub == pub then ReplayRow(v, r) else v
  }

  function RowsOf(audit: seq<AuditRow>, pub: string): nat {
    if audit == [] then 0
    else RowsOf(audit[..|audit| - 1], pub) + (if audit[|audit| - 1].pub == pub then 1 else 0)
  }

  ghost predicate KeysUsedOnce(audit: seq<AuditRow>) {
    forall i, j | 0 <= i < j < |audit| :: !(audit[i].actor == audit[j].actor && audit[i].key == audit[j].key)
  }

  ghost predicate SkillHistory(audit: seq<AuditRow>, pub: string, sk: Skill) {
    && ReplayAudit(audit, pub) == Some(SkillView(sk.status, sk.revision, sk.approvedBy))
    && RowsOf(audit, pub) == sk.revision
  }

  ghost predicate AuditOk(db: Db) {
    && KeysUsedOnce(db.audit)
    && (forall pub | pub in db.skills :: SkillHistory(db.audit, pub, db.skills[pub]))
    && (forall pub | pub !in db.skills :: ReplayAudit(db.audit, pub) == None && RowsOf(db.audit, pub) == 0)
  }

  /** One audit row that records the change of one publication. */
  ghost predicate Audits(before: Db, after: Db, r: AuditRow) {
    && after.audit == before.audit + [r]
    && KeyUnused(before.audit, r.actor, r.key)
    && r.pub in after.skills
    && after.skills == before.skills[r.pub := after.skills[r.pub]]
    && var n := after.skills[r.pub];
       if r.prior.None? then r.pub !in before.skills && r.number == 1 && n.status == r.next && n.revision == 1 &&
           n.approvedBy.None?
       else
         && r.pub in before.skills && before.skills[r.pub].status == r.prior.value
         && before.skills[r.pub].revision + 1 == r.number && n == Applied(before.skills[r.pub], r)
  }

  lemma RowKeepsAudit(before: Db, after: Db, r: AuditRow)
    requires AuditOk(before) && Audits(before, after, r)
    ensures AuditOk(after)
  {
    assert (before.audit + [r])[..|before.audit + [r]| - 1] == before.audit;
    forall i, j | 0 <= i < j < |after.audit|
      ensures !(after.audit[i].actor == after.audit[j].actor && after.audit[i].key == after.audit[j].key)
    {
      if j == |before.audit| {
        assert before.audit[i] in before.audit;
      }
    }
    if r.pub in before.skills {
      assert SkillHistory(before.audit, r.pub, before.skills[r.pub]);
    }
    forall pub | pub in after.skills
      ensures SkillHistory(after.audit, pub, after.skills[pub])
    {
      if pub != r.pub {
        assert SkillHistory(before.audit, pub, before.skills[pub]);
      }
    }
  }

  // ---------- every step records what it changes ----------

  ghost predicate EventsFollow(before: Db, after: Db) {
    || (after.events == before.events && after.jobs == before.jobs)
    || (exists e :: Records(before, after, e))
  }

  ghost predicate AuditFollows(before: Db, after: Db) {
    || (after.audit == before.audit && after.skills == before.skills)
    || (exists r :: Audits(before, after, r))
  }

  lemma AuditRecords(db: Db, row: AuditRow)
    requires row.prior.Some? && InsertAudit(db, row).Ok?
    ensures Audits(db, InsertAudit(db, row).value, row)
    ensures InsertAudit(db, row).value.jobs == db.jobs && InsertAudit(db, row).value.events == db.events
  {
  }

  /** A step leaves an event for what it did to the jobs, and an audit row for what it did to the publications. */
  ghost predicate Follows(before: Db, after: Db) {
    EventsFollow(before, after) && AuditFollows(before, after)
  }

  lemma PublishRecords(db: Db, u: Upload, now: Time)
    ensures Follows(db, Kept(db, CreatePublication(db, u, now)))
  {
    if CreatePublication(db, u, now).Ok? {
      PublishEffect(db, u, now);
      var after := CreatePublication(db, u, now).value;
      assert Audits(db, after, PublishRow(u));
      if u.scan.Some? {
        assert Records(db, after, AdmissionEvent(u.scan.value));
      }
    }
  }

  lemma ReviewRecords(db: Db, pub: string, target: SkillStatus, actor: string, key: string)
    ensures Follows(db, Kept(db, TransitionSkill(db, pub, target, actor, key)))
  {
    if TransitionSkill(db, pub, target, actor, key).Ok? {
      AuditRecords(db, AuditRow(pub, db.skills[pub].revision + 1, actor, PriorStatus(target), target, key));
    }
  }

  lemma CompletionRecords(max: nat, db: Db, id: string, w: string, o: Outcome, now: Time)
    requires JobsOk(max, db) && Complete(db, id, w, o, now).Ok?
    ensures EventsFollow(db, Complete(db, id, w, o, now).value.0)
    ensures AuditFollows(db, Complete(db, id, w, o, now).value.0)
  {
    if HoldsLease(db, id, w, now) && !Terminal(db.jobs[id].state) {
      assert JobOk(max, db.jobs[id]);
      var after := Complete(db, id, w, o, now).value.0;
      var done := Finished(db, id, w, o, now);
      var row := CompletionAudit(done, id, w, o.state);
      if row.Some? {
        AuditRecords(done, row.value);
        assert Audits(db, after, row.value);
      }
      var n := Completed(db.jobs[id], o, now);
      assert Records(db, after, Event(id, Completion, o.state, n.attempts, Some(o.verdict), o.stats, Some(w)));
    }
  }

  lemma ProgressRecords(max: nat, db: Db, id: string, w: string, r: Report, now: Time)
    requires JobsOk(max, db) && RecordProgress(db, id, w, r, now).Ok? && !Terminal(r.state)
    ensures EventsFollow(db, RecordProgress(db, id, w, r, now).value)
  {
    assert JobOk(max, db.jobs[id]);
    var n := Reported(db.jobs[id], r, now);
    assert Records(db, RecordProgress(db, id, w, r, now).value,
           Event(id, Progress, r.state, n.attempts, None, map[], Some(w)));
  }

  lemma ClaimRecords(p: Policy, s: System, w: string, id: string, now: Time)
    requires JobsOk(p.maximumAttempts, s.db)
    ensures Follows(s.db, ClaimStep(p, s, w, id, now).db)
  {
    if IsCandidate(s.db, id, now) && ClaimDue(s.db, id, w, now, p.leaseSeconds as real).Ok? {
      var n := Leased(s.db.jobs[id], w, now, p.leaseSeconds as real);
      assert Records(s.db, ClaimDue(s.db, id, w, now, p.leaseSeconds as real).value.0, LeaseEvent(id, n, w));
    }
  }

  lemma CommitRecords(max: nat, db: Db, id: string, w: string, rec: Job, a: Action, now: Time)
    requires JobsOk(max, db) && Fenced(max, db, w, Decided(id, rec, a))
    ensures Follows(db, Kept(db, CommitAction(db, id, w, a, now)))
  {
    match a
    case Finish(o) =>
      if Complete(db, id, w, o, now).Ok? {
        CompletionRecords(max, db, id, w, o, now);
      }
    case Tell(r) =>
      if RecordProgress(db, id, w, r, now).Ok? {
        assert JobUpdateAllowed(db.jobs[id], Reported(db.jobs[id], r, now));
        ProgressRecords(max, db, id, w, r, now);
      }
    case _ =>
  }

  lemma StepRecords(p: Policy, s: System, step: Step)
    requires Inv(p, s)
    ensures Follows(s.db, NextDb(p, s, step))
  {
    match step
    case Publish(u, now) => PublishRecords(s.db, u, now);
    case Review(pub, target, actor, key) => ReviewRecords(s.db, pub, target, actor, key);
    case Claim(w, id, now) => ClaimRecords(p, s, w, id, now);
    case Commit(w, now) =>
      var l := LocalOf(s, w);
      if l.Decided? && !l.action.Retry? {
        assert Fenced(p.maximumAttempts, s.db, w, l);
        CommitRecords(p.maximumAttempts, s.db, l.id, w, l.rec, l.action, now);
      }
    case _ =>
  }

  lemma {:induction false} HistoriesReplay(p: Policy, steps: seq<Step>)
    ensures EventsOk(Run(p, START, steps).db) && AuditOk(Run(p, START, steps).db)
  {
    if steps != [] {
      var earlier := steps[..|steps| - 1];
      HistoriesReplay(p, earlier);
      ReachableInv(p, earlier);
      var s := Run(p, START, earlier);
      var t := Run(p, START, steps);
      StepRecords(p, s, steps[|steps| - 1]);
      NextTables(p, s, steps[|steps| - 1]);
      if !(t.db.events == s.db.events && t.db.jobs == s.db.jobs) {
        var e :| Records(s.db, t.db, e);
        RecordKeepsEvents(s.db, t.db, e);
      }
      if !(t.db.audit == s.db.audit && t.db.skills == s.db.skills) {
        var r :| Audits(s.db, t.db, r);
        RowKeepsAudit(s.db, t.db, r);
      }
    }
  }

  /** The histories of one job and one publication stay short, whatever happens: one lease event for each attempt,
      at most one outcome for each attempt and at most one completion in all, hence at most 1 + 2 * attempts events;
      and as many audit rows as the publication's revision, never more than three. */
  lemma {:induction false} HistoriesAreBounded(p: Policy, steps: seq<Step>, id: string, pub: string)
    ensures var db := Run(p, START, steps).db;
            && (id in db.jobs ==>
                  && (forall a: nat | 1 <= a <= db.jobs[id].attempts ::
                        CountAt(db.events, id, false, a) == 1 && CountAt(db.events, id, true, a) <= 1)
                  && Completions(db.events, id) <= 1
                  && Total(db.events, id) <= 1 + 2 * db.jobs[id].attempts)
            && (pub in db.skills ==> RowsOf(db.audit, pub) == db.skills[pub].revision <= 3)
            && KeysUsedOnce(db.audit)
  {
    HistoriesReplay(p, steps);
    ReachableInv(p, steps);
    var db := Run(p, START, steps).db;
    if id in db.jobs {
      assert JobHistory(db.events, id, db.jobs[id]);
    }
    if pub in db.skills {
      assert SkillHistory(db.audit, pub, db.skills[pub]) && SkillOk(db.skills[pub]);
    }
  }
}
