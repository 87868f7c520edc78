/** What a scan worker decides from the row it claimed and the provider's reply, and when a job runs again. */
module WorkerDecisions {
  import opened Wrappers
  import opened ScanEvidence
  import opened ScanTables

  datatype Policy = Policy(
    leaseSeconds: int, initialBackoff: real, maximumBackoff: real, jitter: real, maximumAttempts: nat, maximumAge: int)

  predicate ValidPolicy(p: Policy) {
    && 1 <= p.leaseSeconds <= 300
    && 0.0 < p.initialBackoff <= p.maximumBackoff
    && 0.0 <= p.jitter <= p.maximumBackoff
    && 1 <= p.maximumAttempts <= 1000
    && 60 <= p.maximumAge <= 604_800
  }

  /** The result of the one provider interaction of a run. MissingUpload and the two faults are raised by the stored
      object or by an exception the worker does not handle; a fault leaves the job leased. */
  datatype Reply =
    | Accepted(analysis: string)
    | InProgress
    | Analysed(raw: Option<RawStats>)
    | RateLimited(retryAfter: real)
    | AuthenticationFailed
    | TemporarilyUnavailable
    | Refused
    | MissingUpload
    | UnreadableUpload
    | Fault

  /** What the worker will ask the repository to write. Retry still has to read the row back before it can report. */
  datatype Action =
    | Finish(outcome: Outcome)
    | Tell(report: Report)
    | Retry(next: Time)
    | Abandon

  function Pow2(n: nat): (r: real)
    ensures r >= 1.0
  {
    if n == 0 then 1.0 else 2.0 * Pow2(n - 1)
  }

  function Exponent(attempts: nat): nat {
    if attempts == 0 then 0 else if attempts - 1 <= 30 then attempts - 1 else 30
  }

  function Scaled(x: real, exponent: nat): real {
    x * Pow2(exponent)
  }

  /** Exponential backoff with a capped exponent, then jitter, both under the cap. */
  function Delay(p: Policy, attempts: nat, jitter: real): real {
    Min(Min(Scaled(p.initialBackoff, Exponent(attempts)), p.maximumBackoff) + jitter, p.maximumBackoff)
  }

  predicate Expired(p: Policy, rec: Job, now: Time) {
    rec.attempts > p.maximumAttempts || now - rec.created > p.maximumAge as real
  }

  const UNAVAILABLE: string := "unavailable"

  function GiveUp(s: JobState): Action {
    Finish(Outcome(s, UNAVAILABLE, map[]))
  }

  /** Reschedule after a retryable failure, or give up when the attempt budget is used. */
  function RetryOrExhaust(p: Policy, rec: Job, delay: real, cap: real, now: Time): Action {
    if rec.attempts >= p.maximumAttempts then GiveUp(Exhausted)
    else Retry(now + Min(Max(delay, 1.0), cap))
  }

  /** Failures that submission and polling treat alike. */
  function OnFailure(p: Policy, rec: Job, reply: Reply, now: Time, jitter: real): Action {
    match reply
    case RateLimited(after) => RetryOrExhaust(p, rec, after, 300.0, now)
    case AuthenticationFailed => RetryOrExhaust(p, rec, p.maximumBackoff, p.maximumBackoff, now)
    case TemporarilyUnavailable => RetryOrExhaust(p, rec, Delay(p, rec.attempts, jitter), p.maximumBackoff, now)
    case Refused => GiveUp(ManualReview)
    case _ => Abandon
  }

  function AfterSubmit(p: Policy, rec: Job, reply: Reply, now: Time, jitter: real): Action {
    match reply
    case Accepted(analysis) =>
      if analysis == "" || |analysis| > 512 then Abandon
      else Tell(Report({PendingSubmission}, Submitted, now + Delay(p, rec.attempts, jitter), Some(analysis), true,
          false))
    case MissingUpload => GiveUp(ManualReview)
    case _ => OnFailure(p, rec, reply, now, jitter)
  }

  /** The terminal state and verdict text that go with a judged analysis. */
  function Judged(a: Assessment): Outcome {
    match a.verdict
    case Benign => Outcome(Clean, "clean", a.stats)
    case Infected => Outcome(Malicious, "malicious", a.stats)
    case NeedsReview => Outcome(ManualReview, "suspicious", a.stats)
  }

  function AfterPoll(p: Policy, rec: Job, reply: Reply, now: Time, jitter: real): Action {
    match reply
    case InProgress =>
      Tell(Report({Submitted, Polling}, Polling, now + Delay(p, rec.attempts, jitter), None, false, true))
    case Analysed(raw) =>
      var assessed := Assess(raw);
      if assessed.None? then GiveUp(ManualReview)
      else if !StatsAccepted(assessed.value.stats) then Abandon
      else Finish(Judged(assessed.value))
    case _ => OnFailure(p, rec, reply, now, jitter)
  }

  /** One run of the worker after a successful claim at `claimedAt`; `now` is read after the reply. */
  function Decide(p: Policy, rec: Job, claimedAt: Time, reply: Reply, now: Time, jitter: real): Action {
    if Expired(p, rec, claimedAt) then GiveUp(Exhausted)
    else if rec.state == PendingSubmission then AfterSubmit(p, rec, reply, now, jitter)
    else if rec.analysis.None? then GiveUp(ManualReview)
    else AfterPoll(p, rec, reply, now, jitter)
  }

  /** Whether that run reaches the provider at all. */
  predicate CallsProvider(p: Policy, rec: Job, claimedAt: Time, reply: Reply) {
    && !Expired(p, rec, claimedAt)
    && (if rec.state == PendingSubmission then reply !in {MissingUpload, UnreadableUpload} else rec.analysis.Some?)
  }

  /** When the action is written, the job runs again at this time. */
  function NextRun(a: Action): Option<Time> {
    match a
    case Tell(report) => Some(report.next)
    case Retry(next) => Some(next)
    case _ => None
  }

  lemma {:induction false} DelayBounds(p: Policy, attempts: nat, jitter: real)
    requires ValidPolicy(p) && 0.0 <= jitter
    ensures p.initialBackoff <= Delay(p, attempts, jitter) <= p.maximumBackoff
  {
    var factor := Pow2(Exponent(attempts));
    assert p.initialBackoff * factor >= p.initialBackoff * 1.0;
  }

  /** Every reschedule a worker decides on lies strictly in the future, and at most the larger of the policy's
      longest backoff and 300 seconds away. */
  lemma {:induction false} RescheduleIsBounded(p: Policy, rec: Job, claimedAt: Time, reply: Reply, now: Time,
      jitter: real)
    requires ValidPolicy(p) && 0.0 <= jitter <= p.jitter
    ensures var next := NextRun(Decide(p, rec, claimedAt, reply, now, jitter));
            next.Some? ==> now < next.value <= now + Max(p.maximumBackoff, 300.0)
  {
    DelayBounds(p, rec.attempts, jitter);
  }
}
