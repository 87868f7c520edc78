/** A run in which an uploader acts under a worker's id and has already used the key of that worker's completion:
    the outcome is written under the lease, and is turned away. */
module ScanKeyClash {
  import opened Wrappers
  import opened ScanEvidence
  import opened ScanTables
  import opened WorkerDecisions
  import opened ScanProtocol
  import opened ScanSafety

  const POLICY: Policy := Policy(30, 2.0, 300.0, 0.0, 20, 86_400)

  const RAW: RawStats := map name | name in REPORTED :: Count(if name == MaliciousCount then 1 else 0)

  const SCANNED: Upload := Upload("p", Identity("p", "1", "archive-p", "manifest-p"), false, PendingReview, "author",
      "first", true, Some("j"))

  /** Another upload, by an actor with the worker's id. */
  const CLASHING: Upload := Upload("q", Identity("q", "1", "archive-q", "manifest-q"), false, PendingReview, "w",
      CompletionKey("j", Malicious), true, None)

  const PUBLISHING: seq<Step> := [Publish(SCANNED, 0.0), Publish(CLASHING, 0.0)]

  const SUBMITTING: seq<Step> := [Claim("w", "j", 0.0), Act("w", Accepted("analysis"), 0.0, 0.0), Commit("w", 0.0)]

  const JUDGING: seq<Step> := [Claim("w", "j", 2.0), Act("w", Analysed(Some(RAW)), 2.0, 0.0)]

  function Row(u: Upload): AuditRow {
    AuditRow(u.pub, 1, u.actor, None, u.status, u.key)
  }

  const AUDIT: seq<AuditRow> := [Row(SCANNED), Row(CLASHING)]

  const SKILLS: map<string, Skill> :=
    map["p" := Skill(SCANNED.identity, PendingReview, 1, false, true, None),
        "q" := Skill(CLASHING.identity, PendingReview, 1, false, false, None)]

  const FRESH: Job := FreshJob("p", 0.0)

  const SUBMISSION: Report := Report({PendingSubmission}, Submitted, 2.0, Some("analysis"), true, false)

  const WAITING: Job := Reported(Leased(FRESH, "w", 0.0, 30.0), SUBMISSION, 0.0)

  const LEASED: Job := Leased(WAITING, "w", 2.0, 30.0)

  const ONE: Db := Db(map["j" := FRESH], map["p" := SKILLS["p"]], [Row(SCANNED)], [AdmissionEvent("j")])

  const TWO: Db := Db(map["j" := FRESH], SKILLS, AUDIT, [AdmissionEvent("j")])

  lemma FirstPublished()
    ensures CreatePublication(EMPTY, SCANNED, 0.0) == Ok(ONE)
  {
    var admitted := Db(map["j" := FRESH], map[], [], [AdmissionEvent("j")]);
    assert EMPTY.jobs["j" := FRESH] == map["j" := FRESH] && [] + [AdmissionEvent("j")] == [AdmissionEvent("j")];
    assert AdmitJob(EMPTY, SCANNED, 0.0) == Ok(admitted);
    assert [] + [Row(SCANNED)] == [Row(SCANNED)];
    var audited := admitted.(audit := [Row(SCANNED)]);
    assert InsertAudit(admitted, Row(SCANNED)) == Ok(audited);
    assert "j" in audited.jobs && audited.jobs["j"].pub == SCANNED.pub;
    assert InitialSkillAllowed(audited, SCANNED);
    assert EMPTY.skills["p" := SKILLS["p"]] == ONE.skills;
  }

  lemma SecondPublished()
    ensures CreatePublication(ONE, CLASHING, 0.0) == Ok(TWO)
  {
    assert AdmitJob(ONE, CLASHING, 0.0) == Ok(ONE);
    var audited := ONE.(audit := AUDIT);
    assert KeyUnused(ONE.audit, "w", CLASHING.key) && NumberUnused(ONE.audit, "q", 1);
    assert ONE.audit + [Row(CLASHING)] == AUDIT;
    assert InsertAudit(ONE, Row(CLASHING)) == Ok(audited);
    assert ONE.skills["q" := SKILLS["q"]] == SKILLS;
  }

  /** The worker `w` alone over these rows. */
  ghost predicate Shows(s: System, j: Job, l: Local) {
    s.db.jobs == map["j" := j] && s.db.skills == SKILLS && s.db.audit == AUDIT && LocalOf(s, "w") == l
  }

  /** A due job that is alone is claimed. */
  lemma Claiming(s: System, j: Job, now: Time)
    requires Shows(s, j, Idle) && Claimable(j, now) && JobUpdateAllowed(j, Leased(j, "w", now, 30.0))
    ensures Shows(Next(POLICY, s, Claim("w", "j", now)), Leased(j, "w", now, 30.0),
              Claimed("j", Leased(j, "w", now, 30.0), now))
  {
    assert IsCandidate(s.db, "j", now);
    assert s.db.jobs["j" := Leased(j, "w", now, 30.0)] == map["j" := Leased(j, "w", now, 30.0)];
  }

  lemma Acting(s: System, j: Job, at: Time, reply: Reply, now: Time)
    requires Shows(s, j, Claimed("j", j, at)) && !Decide(POLICY, j, at, reply, now, 0.0).Abandon?
    ensures Shows(Next(POLICY, s, Act("w", reply, now, 0.0)), j,
              Decided("j", j, Decide(POLICY, j, at, reply, now, 0.0)))
  {
  }

  lemma Reporting(s: System, j: Job, r: Report, now: Time)
    requires Shows(s, j, Decided("j", j, Tell(r))) && HoldsLease(s.db, "j", "w", now) && j.state in r.expected
    requires JobUpdateAllowed(j, Reported(j, r, now))
    ensures Shows(Next(POLICY, s, Commit("w", now)), Reported(j, r, now), Idle)
  {
    assert s.db.jobs["j" := Reported(j, r, now)] == map["j" := Reported(j, r, now)];
  }

  lemma FirstDecision()
    ensures Decide(POLICY, Leased(FRESH, "w", 0.0, 30.0), 0.0, Accepted("analysis"), 0.0, 0.0) == Tell(SUBMISSION)
  {
    assert Pow2(0) == 1.0 && Delay(POLICY, 1, 0.0) == 2.0;
  }

  lemma OneDetection()
    ensures NormalisedStats(RAW).Some? && Detected(NormalisedStats(RAW).value) &&
              StatsAccepted(NormalisedStats(RAW).value)
  {
    forall name | name in REPORTED
      ensures NonNegativeCount(RAW, name) == Some(if name == MaliciousCount then 1 else 0)
    {
    }
    assert MaliciousCount in REPORTED;
    assert forall name | name in REPORTED :: !name.Other?;
  }

  lemma Detection()
    ensures Assess(Some(RAW)).Some? && Assess(Some(RAW)).value.verdict == Infected &&
              StatsAccepted(Assess(Some(RAW)).value.stats)
  {
    OneDetection();
    VerdictMatchesEvidence(RAW);
  }

  /** A judged analysis finishes a job that is not expired. */
  lemma JudgedDecision(rec: Job, raw: RawStats)
    requires !Expired(POLICY, rec, 2.0) && rec.state == Submitted && rec.analysis.Some?
    requires Assess(Some(raw)).Some? && StatsAccepted(Assess(Some(raw)).value.stats)
    ensures Decide(POLICY, rec, 2.0, Analysed(Some(raw)), 2.0, 0.0) == Finish(Judged(Assess(Some(raw)).value))
  {
  }

  lemma SecondDecision()
    ensures var a := Decide(POLICY, LEASED, 2.0, Analysed(Some(RAW)), 2.0, 0.0);
            a.Finish? && a.outcome.state == JobState.Malicious
  {
    Detection();
    JudgedDecision(LEASED, RAW);
  }

  lemma Published()
    ensures Shows(Next(POLICY, Next(POLICY, START, Publish(SCANNED, 0.0)), Publish(CLASHING, 0.0)), FRESH, Idle)
  {
    FirstPublished();
    SecondPublished();
  }

  lemma Submitting(s: System)
    requires Shows(s, FRESH, Idle)
    ensures Shows(Next(POLICY,
              Next(POLICY, Next(POLICY, s, Claim("w", "j", 0.0)), Act("w", Accepted("analysis"), 0.0, 0.0)),
              Commit("w", 0.0)), WAITING, Idle)
  {
    var j := Leased(FRESH, "w", 0.0, 30.0);
    Claiming(s, FRESH, 0.0);
    var a := Next(POLICY, s, Claim("w", "j", 0.0));
    FirstDecision();
    Acting(a, j, 0.0, Accepted("analysis"), 0.0);
    Reporting(Next(POLICY, a, Act("w", Accepted("analysis"), 0.0, 0.0)), j, SUBMISSION, 0.0);
  }

  lemma Judging(s: System)
    requires Shows(s, WAITING, Idle)
    ensures var t := Next(POLICY, Next(POLICY, s, Claim("w", "j", 2.0)), Act("w", Analysed(Some(RAW)), 2.0, 0.0));
            Shows(t, LEASED, Decided("j", LEASED, Decide(POLICY, LEASED, 2.0, Analysed(Some(RAW)), 2.0, 0.0)))
  {
    Claiming(s, WAITING, 2.0);
    SecondDecision();
    Acting(Next(POLICY, s, Claim("w", "j", 2.0)), LEASED, 2.0, Analysed(Some(RAW)), 2.0);
  }

  lemma Clashes(s: System, a: Action)
    requires Shows(s, LEASED, Decided("j", LEASED, a)) && a.Finish? && a.outcome.state == JobState.Malicious
    ensures InTime(s, "w", 2.0) && Blocked(s.db, "j", "w", a)
  {
    assert AUDIT[1] in s.db.audit;
  }

  lemma RunTwo(p: Policy, s: System, a: Step, b: Step)
    ensures Run(p, s, [a, b]) == Next(p, Next(p, s, a), b)
  {
    assert [a, b][..1] == [a] && [a][..0] == [];
    assert Run(p, s, [a]) == Next(p, s, a);
  }

  lemma RunThree(p: Policy, s: System, a: Step, b: Step, c: Step)
    ensures Run(p, s, [a, b, c]) == Next(p, Next(p, Next(p, s, a), b), c)
  {
    assert [a, b, c][..2] == [a, b];
    RunTwo(p, s, a, b);
  }

  lemma RunsTogether()
    ensures var t := Run(POLICY, START, PUBLISHING + SUBMITTING + JUDGING);
            Shows(t, LEASED, Decided("j", LEASED, Decide(POLICY, LEASED, 2.0, Analysed(Some(RAW)), 2.0, 0.0)))
  {
    RunAppends(POLICY, START, PUBLISHING + SUBMITTING, JUDGING);
    RunAppends(POLICY, START, PUBLISHING, SUBMITTING);
    RunTwo(POLICY, START, PUBLISHING[0], PUBLISHING[1]);
    Published();
    var s := Run(POLICY, START, PUBLISHING);
    RunThree(POLICY, s, SUBMITTING[0], SUBMITTING[1], SUBMITTING[2]);
    Submitting(s);
    var m := Run(POLICY, s, SUBMITTING);
    RunTwo(POLICY, m, JUDGING[0], JUDGING[1]);
    Judging(m);
  }

  /** The clash is reachable: the outcome is in time, and is turned away. */
  lemma {:induction false} ClashIsReachable()
    ensures var s := Run(POLICY, START, PUBLISHING + SUBMITTING + JUDGING);
            InTime(s, "w", 2.0) && CommitAction(s.db, LocalOf(s, "w").id, "w", LocalOf(s, "w").action, 2.0).Err?
  {
    RunsTogether();
    SecondDecision();
    var s := Run(POLICY, START, PUBLISHING + SUBMITTING + JUDGING);
    Clashes(s, LocalOf(s, "w").action);
    InTimeOutcomesCommit(POLICY, PUBLISHING + SUBMITTING + JUDGING, "w", 2.0);
  }
}
