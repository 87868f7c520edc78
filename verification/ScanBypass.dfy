/** How long a due job waits: it is claimed after at most as many claims of other jobs as there were unfinished jobs
    not strictly behind it. */
module ScanBypass {
  import opened Wrappers
  import opened ScanTables
  import opened WorkerDecisions
  import opened ScanProtocol
  import opened ScanSafety
  import opened ScanVisibility
  import opened ScanBudget
  import opened ScanQueue

  /** The unfinished jobs that can still be served before `x`. */
  function Ahead(db: Db, x: string): set<string>
    requires x in db.jobs
  {
    set id | id in db.jobs && id != x && !Terminal(db.jobs[id].state) && !Later(db, x, id)
  }

  /** Whatever is published during the wait is stamped after the waiting job's time. */
  ghost predicate PublishedAfter(steps: seq<Step>, time: Time) {
    forall step | step in steps && step.Publish? :: time < step.now
  }

  /** Jobs published during the wait are still unclaimed, and queued behind. */
  ghost predicate NewcomersWait(start: Db, db: Db, x: string)
    requires x in start.jobs
  {
    forall id | id in db.jobs && id !in start.jobs ::
      db.jobs[id].leaseOwner.None? && start.jobs[x].nextAttempt < db.jobs[id].nextAttempt
  }

  predicate Succeeds(s: System, step: Step) {
    step.Claim? && Takes(s, step, step.id)
  }

  /** The successful claims of a run, and the jobs they took. */
  function AllClaims(p: Policy, s: System, steps: seq<Step>): nat {
    if steps == [] then 0
    else
      var earlier, last := steps[..|steps| - 1], steps[|steps| - 1];
      AllClaims(p, s, earlier) + if Succeeds(Run(p, s, earlier), last) then 1 else 0
  }

  function Taken(p: Policy, s: System, steps: seq<Step>): set<string> {
    if steps == [] then {}
    else
      var earlier, last := steps[..|steps| - 1], steps[|steps| - 1];
      Taken(p, s, earlier) + if Succeeds(Run(p, s, earlier), last) then {last.id} else {}
  }

  // ---------- newcomers ----------

  /** A claim takes no newcomer: the waiting job could be claimed instead, and is queued before. */
  lemma TakesNoNewcomer(max: nat, start: Db, db: Db, x: string, due: Time, id: string, now: Time)
    requires DbOk(max, db) && Waiting(start, x, due) && RowsWait(start, db, x) && NewcomersWait(start, db, x)
    requires IsCandidate(db, id, now) && due <= now
    ensures id in start.jobs
  {
    assert JobOk(max, db.jobs[x]);
    assert Claimable(db.jobs[x], now);
    assert QueuedNoLater(db.jobs[id], db.jobs[x]);
  }

  lemma PublishKeepsNewcomers(start: Db, db: Db, x: string, u: Upload, now: Time)
    requires x in start.jobs && NewcomersWait(start, db, x) && start.jobs[x].nextAttempt < now
    ensures NewcomersWait(start, Kept(db, CreatePublication(db, u, now)), x)
  {
    if CreatePublication(db, u, now).Ok? {
      PublishEffect(db, u, now);
    }
  }

  lemma ReviewKeepsNewcomers(max: nat, start: Db, db: Db, x: string, pub: string, target: SkillStatus, actor: string,
      key: string)
    requires DbOk(max, db) && x in start.jobs && NewcomersWait(start, db, x)
    ensures NewcomersWait(start, Kept(db, TransitionSkill(db, pub, target, actor, key)), x)
  {
    if TransitionSkill(db, pub, target, actor, key).Ok? {
      ReviewKeepsDb(max, db, pub, target, actor, key);
    }
  }

  lemma ClaimKeepsNewcomers(p: Policy, start: Db, s: System, x: string, due: Time, w: string, id: string, now: Time)
    requires Inv(p, s) && Waiting(start, x, due) && RowsWait(start, s.db, x) && NewcomersWait(start, s.db, x) &&
               due <= now
    ensures NewcomersWait(start, ClaimStep(p, s, w, id, now).db, x)
  {
    if LocalOf(s, w).Idle? && IsCandidate(s.db, id, now) {
      TakesNoNewcomer(p.maximumAttempts, start, s.db, x, due, id, now);
      var rec := ClaimLeases(p, s, w, id, now);
    }
  }

  lemma CommitKeepsNewcomers(p: Policy, start: Db, s: System, x: string, w: string, now: Time)
    requires Inv(p, s) && x in start.jobs && NewcomersWait(start, s.db, x)
    ensures NewcomersWait(start, CommitStep(s, w, now).db, x)
  {
    var l := LocalOf(s, w);
    if l.Decided? && !l.action.Retry? {
      assert Fenced(p.maximumAttempts, s.db, w, l);
      CommitEffect(p.maximumAttempts, s.db, l.id, w, l.rec, l.action, now);
      assert FencedWrite(s.db, CommitStep(s, w, now).db, l.id, w, l.rec);
    }
  }

  lemma StepKeepsNewcomers(p: Policy, start: Db, s: System, x: string, due: Time, step: Step)
    requires Inv(p, s) && Waiting(start, x, due) && RowsWait(start, s.db, x) && NewcomersWait(start, s.db, x)
    requires Passes(s, step, x, due) && (step.Publish? ==> start.jobs[x].nextAttempt < step.now)
    ensures NewcomersWait(start, Next(p, s, step).db, x)
  {
    match step
    case Publish(u, now) => PublishKeepsNewcomers(start, s.db, x, u, now);
    case Review(pub, target, actor, key) =>
      ReviewKeepsNewcomers(p.maximumAttempts, start, s.db, x, pub, target, actor, key);
    case Claim(w, id, now) => ClaimKeepsNewcomers(p, start, s, x, due, w, id, now);
    case Commit(w, now) => CommitKeepsNewcomers(p, start, s, x, w, now);
    case _ =>
  }

  lemma {:induction false} NewcomersAlwaysWait(p: Policy, s: System, x: string, due: Time, steps: seq<Step>)
    requires ValidPolicy(p) && Inv(p, s) && Waiting(s.db, x, due) && AllPass(p, s, steps, x, due)
    requires PublishedAfter(steps, s.db.jobs[x].nextAttempt)
    ensures NewcomersWait(s.db, Run(p, s, steps).db, x)
  {
    if steps != [] {
      var earlier := steps[..|steps| - 1];
      EarlierPass(p, s, steps, x, due);
      NewcomersAlwaysWait(p, s, x, due, earlier);
      RunWaits(p, s, x, due, earlier);
      RunKeepsInv(p, s, earlier);
      StepKeepsNewcomers(p, s.db, Run(p, s, earlier), x, due, steps[|steps| - 1]);
    }
  }

  // ---------- counting ----------

  /** A claim at the end of the wait takes a job that was ahead, and that no earlier claim took. */
  lemma {:induction false} LastClaimIsNew(p: Policy, s: System, x: string, due: Time, steps: seq<Step>)
    requires ValidPolicy(p) && Inv(p, s) && Waiting(s.db, x, due) && AllPass(p, s, steps, x, due) && steps != []
    requires PublishedAfter(steps, s.db.jobs[x].nextAttempt)
    requires Succeeds(Run(p, s, steps[..|steps| - 1]), steps[|steps| - 1])
    ensures steps[|steps| - 1].id in Ahead(s.db, x) && Claims(p, s, steps[..|steps| - 1], steps[|steps| - 1].id) == 0
  {
    var earlier, last := steps[..|steps| - 1], steps[|steps| - 1];
    var m := Run(p, s, earlier);
    EarlierPass(p, s, steps, x, due);
    assert PublishedAfter(earlier, s.db.jobs[x].nextAttempt);
    NewcomersAlwaysWait(p, s, x, due, earlier);
    RunWaits(p, s, x, due, earlier);
    RunKeepsInv(p, s, earlier);
    TakesNoNewcomer(p.maximumAttempts, s.db, m.db, x, due, last.id, last.now);
    PassedOnceFrom(p, s, steps, x, due, last.id);
    RunEvolves(p, s, earlier);
  }

  lemma {:induction false} TakenCounts(p: Policy, s: System, x: string, due: Time, steps: seq<Step>)
    requires ValidPolicy(p) && Inv(p, s) && Waiting(s.db, x, due) && AllPass(p, s, steps, x, due)
    requires PublishedAfter(steps, s.db.jobs[x].nextAttempt)
    ensures Taken(p, s, steps) <= Ahead(s.db, x) && |Taken(p, s, steps)| == AllClaims(p, s, steps)
    ensures forall id | id in Taken(p, s, steps) :: Claims(p, s, steps, id) > 0
  {
    if steps != [] {
      var earlier := steps[..|steps| - 1];
      EarlierPass(p, s, steps, x, due);
      assert PublishedAfter(earlier, s.db.jobs[x].nextAttempt);
      TakenCounts(p, s, x, due, earlier);
      if Succeeds(Run(p, s, earlier), steps[|steps| - 1]) {
        LastClaimIsNew(p, s, x, due, steps);
      }
    }
  }

  lemma SubsetSize<T>(a: set<T>, b: set<T>)
    requires a <= b
    ensures |a| <= |b|
  {
    assert b == a + (b - a);
  }

  /** The measure of the bypass. While a due, unleased job of a reachable state waits, as above, and whatever is
      published is stamped after its time, at most as many claims succeed as there were unfinished jobs not strictly
      behind it. So the next successful claim after those takes the waiting job. */
  lemma {:induction false} BypassIsBounded(p: Policy, steps: seq<Step>, later: seq<Step>, x: string, due: Time)
    requires ValidPolicy(p) && Waiting(Run(p, START, steps).db, x, due)
    requires AllPass(p, Run(p, START, steps), later, x, due)
    requires PublishedAfter(later, Run(p, START, steps).db.jobs[x].nextAttempt)
    ensures AllClaims(p, Run(p, START, steps), later) <= |Ahead(Run(p, START, steps).db, x)|
  {
    ReachableInv(p, steps);
    var s := Run(p, START, steps);
    TakenCounts(p, s, x, due, later);
    SubsetSize(Taken(p, s, later), Ahead(s.db, x));
  }
}
