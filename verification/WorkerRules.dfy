/** The worker's decisions, said over the claimed row and the provider's reply alone: when a run ends its job and
    how, when it reports or reschedules, and to which second. */
module WorkerRules {
  import opened Wrappers
  import opened ScanEvidence
  import opened ScanTables
  import opened WorkerDecisions

  // ---------- the circumstances ----------

  /** More claims than the policy allows, or too old at the claim. */
  predicate BeyondLife(p: Policy, rec: Job, claimedAt: Time) {
    rec.attempts > p.maximumAttempts || claimedAt - rec.created > p.maximumAge as real
  }

  predicate Submitting(rec: Job) {
    rec.state == PendingSubmission
  }

  /** A run after the submission that knows no analysis to ask for. */
  predicate AnalysisLost(rec: Job) {
    rec.state != PendingSubmission && rec.analysis == None
  }

  /** The run gets to hear from storage or from the provider. */
  predicate Hears(p: Policy, rec: Job, claimedAt: Time) {
    !BeyondLife(p, rec, claimedAt) && !AnalysisLost(rec)
  }

  predicate MayRetry(reply: Reply) {
    reply.RateLimited? || reply == AuthenticationFailed || reply == TemporarilyUnavailable
  }

  // ---------- the evidence of a completed analysis ----------

  /** The count under a name, if it is a plain non-negative integer. */
  predicate Reads(raw: RawStats, name: Label, n: nat) {
    name in raw && raw[name] == Count(n)
  }

  datatype Counts = Counts(
    malicious: nat, suspicious: nat, harmless: nat,
    undetected: nat, failed: nat, timedOut: nat, confirmedTimeout: nat, unsupported: nat)

  /** All eight counts are there. */
  predicate Shows(raw: RawStats, c: Counts) {
    && Reads(raw, MaliciousCount, c.malicious) && Reads(raw, SuspiciousCount, c.suspicious)
    && Reads(raw, HarmlessCount, c.harmless) && Reads(raw, Undetected, c.undetected) && Reads(raw, Failed, c.failed)
    && Reads(raw, TimedOut, c.timedOut) && Reads(raw, ConfirmedTimeout, c.confirmedTimeout)
    && Reads(raw, TypeUnsupported, c.unsupported)
  }

  predicate FindsMalware(c: Counts) {
    c.malicious > 0
  }

  predicate FindsNothing(c: Counts) {
    && c.malicious == 0 && c.suspicious == 0
    && c.harmless > c.undetected + c.failed + c.timedOut + c.confirmedTimeout + c.unsupported
  }

  predicate Moderate(c: Counts) {
    && c.malicious <= 1_000_000 && c.suspicious <= 1_000_000 && c.harmless <= 1_000_000 && c.undetected <= 1_000_000
    && c.failed <= 1_000_000 && c.timedOut <= 1_000_000 && c.confirmedTimeout <= 1_000_000
    && c.unsupported <= 1_000_000
  }

  /** The eight counts as they are persisted. */
  ghost predicate Persists(stats: Stats, c: Counts) {
    && stats.Keys == {MaliciousCount, SuspiciousCount, HarmlessCount, Undetected, Failed, TimedOut, ConfirmedTimeout,
                      TypeUnsupported}
    && stats[MaliciousCount] == c.malicious && stats[SuspiciousCount] == c.suspicious
    && stats[HarmlessCount] == c.harmless && stats[Undetected] == c.undetected && stats[Failed] == c.failed
    && stats[TimedOut] == c.timedOut && stats[ConfirmedTimeout] == c.confirmedTimeout
    && stats[TypeUnsupported] == c.unsupported
  }

  lemma ReadsNonNegative(raw: RawStats, name: Label)
    ensures forall n: nat :: Reads(raw, name, n) <==> NonNegativeCount(raw, name) == Some(n)
  {
  }

  lemma ShownAreReported(raw: RawStats, c: Counts)
    requires Shows(raw, c)
    ensures NormalisedStats(raw).Some? && Persists(NormalisedStats(raw).value, c)
  {
    assert forall name | name in REPORTED :: NonNegativeCount(raw, name).Some?;
    var stats := NormalisedStats(raw).value;
    assert stats.Keys == REPORTED;
  }

  lemma ReportedAreShown(raw: RawStats)
    requires NormalisedStats(raw).Some?
    ensures exists c :: Shows(raw, c)
  {
    var s := NormalisedStats(raw).value;
    assert MaliciousCount in REPORTED && SuspiciousCount in REPORTED && HarmlessCount in REPORTED;
    assert Undetected in REPORTED && Failed in REPORTED && TimedOut in REPORTED;
    assert ConfirmedTimeout in REPORTED && TypeUnsupported in REPORTED;
    var c := Counts(s[MaliciousCount], s[SuspiciousCount], s[HarmlessCount], s[Undetected], s[Failed], s[TimedOut],
                    s[ConfirmedTimeout], s[TypeUnsupported]);
    assert Shows(raw, c);
  }

  /** What an analysis with all its counts amounts to. */
  lemma ShownIsAssessed(raw: RawStats, c: Counts)
    requires Shows(raw, c)
    ensures Assess(Some(raw)).Some?
    ensures var a := Assess(Some(raw)).value;
            && Persists(a.stats, c) && (StatsAccepted(a.stats) <==> Moderate(c))
            && (a.verdict == Infected <==> FindsMalware(c)) && (a.verdict == Benign <==> FindsNothing(c))
  {
    ShownAreReported(raw, c);
    VerdictMatchesEvidence(raw);
    var stats := NormalisedStats(raw).value;
    assert Assess(Some(raw)).value.stats == stats;
    PersistedBound(stats, c);
  }

  lemma PersistedBound(stats: Stats, c: Counts)
    requires Persists(stats, c)
    ensures StatsAccepted(stats) <==> Moderate(c)
    ensures REPORTED <= stats.Keys
    ensures Detected(stats) <==> FindsMalware(c)
    ensures HarmlessMajority(stats) <==> FindsNothing(c)
  {
    assert REPORTED == stats.Keys;
  }

  /** And one that lacks any is malformed. */
  lemma UnshownIsMalformed(raw: RawStats)
    requires forall c :: !Shows(raw, c)
    ensures Assess(Some(raw)).None?
  {
    if NormalisedStats(raw).Some? {
      ReportedAreShown(raw);
    }
  }

  // ---------- how long a job waits ----------

  function Doublings(x: real, k: nat): real {
    if k == 0 then x else 2.0 * Doublings(x, k - 1)
  }

  function Capped(x: real, cap: real): real {
    if x > cap then cap else x
  }

  /** The first wait, doubled once for every attempt after the first but at most thirty times; with the jitter
      added, never above the longest. */
  function WaitAfter(p: Policy, attempts: nat, jitter: real): real {
    var doublings := if attempts <= 1 then 0 else if attempts > 31 then 30 else attempts - 1;
    Capped(Capped(Doublings(p.initialBackoff, doublings), p.maximumBackoff) + jitter, p.maximumBackoff)
  }

  /** What the provider asks for, between one second and five minutes; the longest wait when it rejects the
      credentials; the usual wait, but a second at least, when it is unavailable. */
  function RetryAfter(p: Policy, rec: Job, reply: Reply, jitter: real): real
    requires MayRetry(reply)
  {
    match reply
    case RateLimited(after) => if after < 1.0 then 1.0 else if after > 300.0 then 300.0 else after
    case AuthenticationFailed => p.maximumBackoff
    case TemporarilyUnavailable =>
      var wait := WaitAfter(p, rec.attempts, jitter);
      Capped(if wait < 1.0 then 1.0 else wait, p.maximumBackoff)
  }

  lemma {:induction false} PowerDoubles(x: real, k: nat)
    ensures Scaled(x, k) == Doublings(x, k)
  {
    if k > 0 {
      PowerDoubles(x, k - 1);
      TwiceProduct(x, Pow2(k - 1), Pow2(k));
    } else {
      assert Pow2(0) == 1.0;
    }
  }

  lemma TwiceProduct(x: real, y: real, twice: real)
    requires twice == 2.0 * y
    ensures x * twice == 2.0 * (x * y)
  {
  }

  lemma {:induction false} DelayIsWait(p: Policy, attempts: nat, jitter: real)
    ensures Delay(p, attempts, jitter) == WaitAfter(p, attempts, jitter)
  {
    PowerDoubles(p.initialBackoff, Exponent(attempts));
    assert Exponent(attempts) == if attempts <= 1 then 0 else if attempts > 31 then 30 else attempts - 1;
    CappedTwice(Scaled(p.initialBackoff, Exponent(attempts)), p.maximumBackoff, jitter);
  }

  lemma CappedTwice(x: real, cap: real, more: real)
    ensures Min(Min(x, cap) + more, cap) == Capped(Capped(x, cap) + more, cap)
  {
  }

  // ---------- when a run ends its job ----------

  /** As exhausted: beyond its life, or at a failure that could be retried with no attempt left. */
  lemma {:induction false} EndsExhaustedIff(p: Policy, rec: Job, at: Time, reply: Reply, now: Time, jitter: real)
    ensures var a := Decide(p, rec, at, reply, now, jitter);
            var ends := BeyondLife(p, rec, at) ||
                        (Hears(p, rec, at) && MayRetry(reply) && rec.attempts >= p.maximumAttempts);
            && (a.Finish? && a.outcome.state == Exhausted <==> ends)
            && (ends ==> a.outcome == Outcome(Exhausted, "unavailable", map[]))
  {
  }

  /** The analysis that a poll heard of has not all its counts. */
  ghost predicate Malformed(raw: Option<RawStats>) {
    raw == None || forall c :: !Shows(raw.value, c)
  }

  /** A poll heard of a completed analysis with these counts, none out of all proportion. */
  ghost predicate HearsCounts(p: Policy, rec: Job, at: Time, reply: Reply, c: Counts) {
    && Hears(p, rec, at) && !Submitting(rec) && reply.Analysed? && reply.raw.Some? && Shows(reply.raw.value, c)
    && Moderate(c)
  }

  /** Why an administrator has to look: nothing to ask for, a refusal, a missing upload, or a malformed analysis. */
  ghost predicate Unanswerable(p: Policy, rec: Job, at: Time, reply: Reply) {
    && !BeyondLife(p, rec, at)
    && (|| AnalysisLost(rec) || reply == Refused
        || (Submitting(rec) && reply == MissingUpload)
        || (!Submitting(rec) && reply.Analysed? && Malformed(reply.raw)))
  }

  lemma AnalysisIsMalformed(raw: Option<RawStats>)
    ensures Assess(raw) == None <==> Malformed(raw)
  {
    if raw.Some? {
      if c :| Shows(raw.value, c) {
        ShownIsAssessed(raw.value, c);
      } else {
        UnshownIsMalformed(raw.value);
      }
    }
  }

  /** For review without a verdict. */
  lemma {:induction false} EndsUnansweredIff(p: Policy, rec: Job, at: Time, reply: Reply, now: Time, jitter: real)
    ensures Decide(p, rec, at, reply, now, jitter) == Finish(Outcome(ManualReview, "unavailable", map[])) <==>
            Unanswerable(p, rec, at, reply)
  {
    if reply.Analysed? {
      AnalysisIsMalformed(reply.raw);
    }
  }

  /** The judged outcome that goes with the counts of an analysis. */
  ghost predicate JudgedAs(a: Action, c: Counts) {
    && a.Finish? && Persists(a.outcome.stats, c)
    && (a.outcome.state == JobState.Malicious <==> FindsMalware(c))
    && (a.outcome.state == JobState.Clean <==> FindsNothing(c))
    && (a.outcome.state == ManualReview <==> !FindsMalware(c) && !FindsNothing(c))
    && (a.outcome.verdict == if FindsMalware(c) then "malicious" else if FindsNothing(c) then "clean" else "suspicious")
  }

  lemma JudgedByCounts(raw: RawStats, c: Counts)
    requires Shows(raw, c)
    ensures Assess(Some(raw)).Some? && JudgedAs(Finish(Judged(Assess(Some(raw)).value)), c)
  {
    ShownIsAssessed(raw, c);
    NotBoth(c);
  }

  lemma NotBoth(c: Counts)
    ensures !(FindsMalware(c) && FindsNothing(c))
  {
  }

  /** With a verdict, exactly when a poll hears of an analysis with all its counts, and as those counts say. */
  lemma {:induction false} EndsJudgedIff(p: Policy, rec: Job, at: Time, reply: Reply, now: Time, jitter: real)
    ensures var a := Decide(p, rec, at, reply, now, jitter);
            && (a.Finish? && a.outcome.verdict != "unavailable" <==> exists c :: HearsCounts(p, rec, at, reply, c))
            && (forall c | HearsCounts(p, rec, at, reply, c) :: JudgedAs(a, c))
  {
    forall c | HearsCounts(p, rec, at, reply, c)
      ensures JudgedAs(Decide(p, rec, at, reply, now, jitter), c)
    {
      JudgedByCounts(reply.raw.value, c);
      ShownIsAssessed(reply.raw.value, c);
    }
    if reply.Analysed? && reply.raw.Some? && Assess(reply.raw).Some? {
      AnalysisIsMalformed(reply.raw);
      var c :| Shows(reply.raw.value, c);
      ShownIsAssessed(reply.raw.value, c);
      assert Moderate(c) && Hears(p, rec, at) && !Submitting(rec) ==> HearsCounts(p, rec, at, reply, c);
    }
  }

  // ---------- when a run keeps its job going ----------

  /** A submission is reported exactly when the provider accepts it under a proper id; the job is polled after the
      usual wait. */
  lemma {:induction false} ReportsSubmissionIff(p: Policy, rec: Job, at: Time, reply: Reply, now: Time, jitter: real)
    ensures var a := Decide(p, rec, at, reply, now, jitter);
            var accepted := Hears(p, rec, at) && Submitting(rec) && reply.Accepted? && 1 <= |reply.analysis| <= 512;
            && (a.Tell? && a.report.state == Submitted <==> accepted)
            && (accepted ==> a == Tell(Report({PendingSubmission}, Submitted, now + WaitAfter(p, rec.attempts, jitter),
                                              Some(reply.analysis), true, false)))
  {
    DelayIsWait(p, rec.attempts, jitter);
  }

  /** A poll is reported exactly when the analysis is still under way; the job is polled again after the usual wait. */
  lemma {:induction false} ReportsPollingIff(p: Policy, rec: Job, at: Time, reply: Reply, now: Time, jitter: real)
    ensures var a := Decide(p, rec, at, reply, now, jitter);
            var pending := Hears(p, rec, at) && !Submitting(rec) && reply == InProgress;
            && (a.Tell? && a.report.state != Submitted <==> pending)
            && (pending ==> a == Tell(Report({Submitted, Polling}, Polling, now + WaitAfter(p, rec.attempts, jitter),
                                             None, false, true)))
  {
    DelayIsWait(p, rec.attempts, jitter);
  }

  lemma FailureRetries(p: Policy, rec: Job, reply: Reply, now: Time, jitter: real)
    requires ValidPolicy(p) && MayRetry(reply)
    ensures OnFailure(p, rec, reply, now, jitter) ==
              if rec.attempts < p.maximumAttempts then Retry(now + RetryAfter(p, rec, reply, jitter))
                  else GiveUp(Exhausted)
  {
    DelayIsWait(p, rec.attempts, jitter);
  }

  lemma HeardFailure(p: Policy, rec: Job, at: Time, reply: Reply, now: Time, jitter: real)
    ensures Hears(p, rec, at) && MayRetry(reply) ==>
              Decide(p, rec, at, reply, now, jitter) == OnFailure(p, rec, reply, now, jitter)
    ensures !(Hears(p, rec, at) && MayRetry(reply)) ==> !Decide(p, rec, at, reply, now, jitter).Retry?
  {
  }

  /** A job is rescheduled exactly at a failure that can be retried while attempts are left, and to this second. */
  lemma {:induction false} RetriesIff(p: Policy, rec: Job, at: Time, reply: Reply, now: Time, jitter: real)
    requires ValidPolicy(p)
    ensures var a := Decide(p, rec, at, reply, now, jitter);
            var retried := Hears(p, rec, at) && MayRetry(reply) && rec.attempts < p.maximumAttempts;
            && (a.Retry? <==> retried)
            && (retried ==> a == Retry(now + RetryAfter(p, rec, reply, jitter)))
  {
    HeardFailure(p, rec, at, reply, now, jitter);
    if MayRetry(reply) {
      FailureRetries(p, rec, reply, now, jitter);
    }
  }

  /** Nothing is written exactly when the run breaks down: an unreadable upload or an unexpected error, an answer
      that does not belong to the request, an improper analysis id, or counts out of all proportion. */
  lemma {:induction false} BreaksDownIff(p: Policy, rec: Job, at: Time, reply: Reply, now: Time, jitter: real)
    ensures Decide(p, rec, at, reply, now, jitter).Abandon? <==>
              && Hears(p, rec, at) && !MayRetry(reply) && reply != Refused
              && (if Submitting(rec)
                  then reply != MissingUpload && !(reply.Accepted? && 1 <= |reply.analysis| <= 512)
                  else reply != InProgress &&
                       (reply.Analysed? ==> !Malformed(reply.raw) && !exists c :: HearsCounts(p, rec, at, reply, c)))
  {
    if reply.Analysed? {
      AnalysisIsMalformed(reply.raw);
      EndsJudgedIff(p, rec, at, reply, now, jitter);
    }
  }

  // ---------- when the provider is called ----------

  /** The provider hears of a job exactly when the run is within its life and has something to send or to ask for. */
  lemma {:induction false} CallsProviderIff(p: Policy, rec: Job, at: Time, reply: Reply)
    ensures CallsProvider(p, rec, at, reply) <==>
              Hears(p, rec, at) && !(Submitting(rec) && (reply == MissingUpload || reply == UnreadableUpload))
  {
  }

  /** Without a call, the decision does not depend on any answer. */
  lemma {:induction false} UncalledIsUnheard(
      p: Policy, rec: Job, at: Time, a: Reply, b: Reply, now: Time, jitter: real)
    requires !CallsProvider(p, rec, at, a) && !CallsProvider(p, rec, at, b)
    ensures Decide(p, rec, at, a, now, jitter) == Decide(p, rec, at, b, now, jitter) ||
            (Submitting(rec) && a != b && {a, b} == {MissingUpload, UnreadableUpload})
  {
  }
}
