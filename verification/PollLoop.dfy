/** Inline polling of one analysis: a loop with doubling waits under a deadline. Every request takes some time, and
    every sleep may last longer than asked for. */
module PollLoop {
  import opened Wrappers
  import opened ScanEvidence

  /** A response says to wait, or settles the poll: with the verdict on its counts, or with the failure it shows. */
  datatype Reply = Waiting | Final(result: Result<Verdict, PollError>)

  datatype Exchange = Exchange(reply: Reply, took: real, overslept: real)

  datatype PollError = DeadlineExceeded | InvalidResponse | HttpFailure

  type Provider = nat -> Exchange

  ghost predicate TimeFlows(p: Provider) {
    forall k: nat :: p(k).took >= 0.0 && p(k).overslept >= 0.0
  }

  // ---------- the schedule ----------

  /** The first wait, doubled `k` times. */
  function Doubled(initial: real, k: nat): real {
    if k == 0 then initial else Doubled(initial, k - 1) * 2.0
  }

  /** The wait after the `k`-th request. */
  function Backoff(initial: real, longest: real, k: nat): real {
    if k == 0 then initial else Min(Backoff(initial, longest, k - 1) * 2.0, longest)
  }

  function BackoffSum(initial: real, longest: real, n: nat): real {
    if n == 0 then 0.0 else BackoffSum(initial, longest, n - 1) + Backoff(initial, longest, n - 1)
  }

  /** When request `k` would be sent if no wait were cut short. */
  function Clock(p: Provider, initial: real, longest: real, start: real, k: nat): real {
    if k == 0 then start
    else
      var earlier := Clock(p, initial, longest, start, k - 1);
      earlier + p(k - 1).took + Backoff(initial, longest, k - 1) + p(k - 1).overslept
  }

  lemma {:induction false} BackoffPositive(initial: real, longest: real, k: nat)
    requires 0.0 < initial <= longest
    ensures initial <= Backoff(initial, longest, k) <= longest
  {
    if k > 0 {
      BackoffPositive(initial, longest, k - 1);
    }
  }

  /** The waits double until the longest one; cutting each one off is cutting the last one off. */
  lemma {:induction false} BackoffClosedForm(initial: real, longest: real, k: nat)
    requires 0.0 < initial <= longest
    ensures Backoff(initial, longest, k) == Min(Doubled(initial, k), longest)
  {
    if k > 0 {
      BackoffClosedForm(initial, longest, k - 1);
    }
  }

  lemma {:induction false} ClockAdvances(p: Provider, initial: real, longest: real, start: real, j: nat, k: nat)
    requires TimeFlows(p) && 0.0 < initial <= longest && j <= k
    ensures Clock(p, initial, longest, start, j) <= Clock(p, initial, longest, start, k)
  {
    if j < k {
      ClockAdvances(p, initial, longest, start, j, k - 1);
      BackoffPositive(initial, longest, k - 1);
    }
  }

  /** Waiting at least the backoffs, and at least the first one each time. */
  lemma {:induction false} WaitsAddUp(p: Provider, initial: real, longest: real, start: real, k: nat)
    requires TimeFlows(p) && 0.0 < initial <= longest
    ensures start + BackoffSum(initial, longest, k) <= Clock(p, initial, longest, start, k)
  {
    if k > 0 {
      WaitsAddUp(p, initial, longest, start, k - 1);
      BackoffPositive(initial, longest, k - 1);
    }
  }

  /** So a bound on the sum of the waits is a bound on the number of requests. */
  lemma {:induction false} RequestsAreBounded(initial: real, longest: real, k: nat)
    requires 0.0 < initial <= longest
    ensures k as real * initial <= BackoffSum(initial, longest, k)
  {
    if k > 0 {
      RequestsAreBounded(initial, longest, k - 1);
      BackoffPositive(initial, longest, k - 1);
      assert k as real * initial == (k - 1) as real * initial + initial;
    }
  }

  // ---------- which request answers ----------

  /** Request `k` is sent and is the first that is not told to wait. */
  ghost predicate AnsweredBy(p: Provider, initial: real, longest: real, start: real, deadline: real, k: nat) {
    Clock(p, initial, longest, start, k) < deadline && p(k).reply != Waiting && forall j: nat | j < k ::
        p(j).reply == Waiting
  }

  function Multiple(x: real, n: nat): real {
    if n == 0 then 0.0 else Multiple(x, n - 1) + x
  }

  lemma {:induction false} MultipleIsProduct(x: real, n: nat)
    ensures Multiple(x, n) == n as real * x
  {
    if n > 0 {
      MultipleIsProduct(x, n - 1);
    }
  }

  /** Any time is covered by so many of the first wait. */
  lemma EnoughWaits(time: real, initial: real) returns (n: nat)
    requires initial > 0.0
    ensures time <= Multiple(initial, n)
  {
    if time <= 0.0 {
      n := 0;
    } else {
      var q := time / initial;
      assert q * initial == time;
      QuotientSign(q, initial);
      n := q.Floor + 1;
      MultipleIsProduct(initial, n);
      QuotientOrder(n as real, q, initial);
    }
  }

  lemma QuotientOrder(x: real, y: real, z: real)
    requires x >= y && z > 0.0
    ensures x * z >= y * z
  {
  }

  lemma QuotientSign(x: real, y: real)
    requires y > 0.0 && x * y >= 0.0
    ensures x >= 0.0
  {
  }

  ghost predicate AllWaiting(p: Provider, n: nat) {
    forall j: nat | j < n :: p(j).reply == Waiting
  }

  /** The result is the answering request's, and giving up if there is none. */
  ghost predicate Concludes(p: Provider, initial: real, longest: real, start: real, deadline: real,
      r: Result<Verdict, PollError>, gets: nat) {
    && (forall k: nat | AnsweredBy(p, initial, longest, start, deadline, k) :: r == p(k).reply.result && gets == k + 1)
    && ((forall k: nat :: !AnsweredBy(p, initial, longest, start, deadline, k)) ==> r == Err(DeadlineExceeded))
  }

  /** Once the schedule passes the deadline with nothing but waiting, no request answers. */
  lemma GivesUp(p: Provider, initial: real, longest: real, start: real, deadline: real, gets: nat)
    requires TimeFlows(p) && 0.0 < initial <= longest
    requires Clock(p, initial, longest, start, gets) >= deadline && AllWaiting(p, gets)
    ensures Concludes(p, initial, longest, start, deadline, Err(DeadlineExceeded), gets)
  {
    forall k: nat
      ensures !AnsweredBy(p, initial, longest, start, deadline, k)
    {
      if k >= gets {
        ClockAdvances(p, initial, longest, start, gets, k);
      }
    }
  }

  lemma Answers(p: Provider, initial: real, longest: real, start: real, deadline: real, k: nat)
    requires Clock(p, initial, longest, start, k) < deadline && AllWaiting(p, k) && p(k).reply != Waiting
    ensures Concludes(p, initial, longest, start, deadline, p(k).reply.result, k + 1)
  {
    assert AnsweredBy(p, initial, longest, start, deadline, k);
  }

  /** Before request `k`: nothing but waiting so far, and the clock as scheduled until the deadline is reached. */
  ghost predicate OnSchedule(p: Provider, initial: real, longest: real, start: real, deadline: real, k: nat,
      now: real) {
    && AllWaiting(p, k)
    && (now == Clock(p, initial, longest, start, k) || deadline <= now <= Clock(p, initial, longest, start, k))
    && (k > 0 ==> Clock(p, initial, longest, start, k - 1) < deadline)
  }

  lemma StaysOnSchedule(p: Provider, initial: real, longest: real, start: real, deadline: real, k: nat, now: real)
    requires TimeFlows(p) && 0.0 < initial <= longest && OnSchedule(p, initial, longest, start, deadline, k, now)
    requires now < deadline && p(k).reply == Waiting && now + p(k).took < deadline
    ensures var delay := Min(Backoff(initial, longest, k), deadline - (now + p(k).took));
            && OnSchedule(p, initial, longest, start, deadline, k + 1, now + p(k).took + delay + p(k).overslept)
            && delay > 0.0
            && (delay >= initial || now + p(k).took + delay == deadline)
  {
    BackoffPositive(initial, longest, k);
  }

  /** When the deadline has passed, before a request or during it, giving up is right. */
  lemma LateGivesUp(p: Provider, initial: real, longest: real, start: real, deadline: real, k: nat, now: real)
    requires TimeFlows(p) && 0.0 < initial <= longest && OnSchedule(p, initial, longest, start, deadline, k, now)
    ensures now >= deadline ==> Concludes(p, initial, longest, start, deadline, Err(DeadlineExceeded), k)
    ensures now < deadline && p(k).reply == Waiting && now + p(k).took >= deadline ==>
              Concludes(p, initial, longest, start, deadline, Err(DeadlineExceeded), k + 1)
    ensures now < deadline && p(k).reply != Waiting ==>
              Concludes(p, initial, longest, start, deadline, p(k).reply.result, k + 1)
  {
    if now >= deadline {
      GivesUp(p, initial, longest, start, deadline, k);
    } else if p(k).reply == Waiting && now + p(k).took >= deadline {
      BackoffPositive(initial, longest, k);
      GivesUp(p, initial, longest, start, deadline, k + 1);
    } else if p(k).reply != Waiting {
      Answers(p, initial, longest, start, deadline, k);
    }
  }

  /** The waits before request `k` all end before the deadline, and so do as many first waits. */
  ghost predicate Within(initial: real, longest: real, start: real, deadline: real, k: nat) {
    BackoffSum(initial, longest, k) < deadline - start && k as real * initial < deadline - start
  }

  lemma WaitsBounded(p: Provider, initial: real, longest: real, start: real, deadline: real, k: nat)
    requires TimeFlows(p) && 0.0 < initial <= longest && Clock(p, initial, longest, start, k) < deadline
    ensures Within(initial, longest, start, deadline, k)
  {
    WaitsAddUp(p, initial, longest, start, k);
    RequestsAreBounded(initial, longest, k);
  }

  /** The time after round `k`, if request `k` is told to wait and there is time left to sleep. */
  function After(p: Provider, initial: real, longest: real, deadline: real, k: nat, now: real): real {
    now + p(k).took + Min(Backoff(initial, longest, k), deadline - (now + p(k).took)) + p(k).overslept
  }

  /** Everything about one round that starts before the deadline. */
  lemma OneRound(p: Provider, initial: real, longest: real, start: real, deadline: real, k: nat, now: real)
    requires TimeFlows(p) && 0.0 < initial <= longest && OnSchedule(p, initial, longest, start, deadline, k, now) &&
               now < deadline
    ensures Within(initial, longest, start, deadline, k)
    ensures p(k).reply != Waiting ==> Concludes(p, initial, longest, start, deadline, p(k).reply.result, k + 1)
    ensures p(k).reply == Waiting && now + p(k).took >= deadline ==>
              Concludes(p, initial, longest, start, deadline, Err(DeadlineExceeded), k + 1)
    ensures p(k).reply == Waiting && now + p(k).took < deadline ==>
              && OnSchedule(p, initial, longest, start, deadline, k + 1, After(p, initial, longest, deadline, k, now))
              && (After(p, initial, longest, deadline, k, now) >= now + initial ||
                    After(p, initial, longest, deadline, k, now) >= deadline)
  {
    WaitsBounded(p, initial, longest, start, deadline, k);
    LateGivesUp(p, initial, longest, start, deadline, k, now);
    if p(k).reply == Waiting && now + p(k).took < deadline {
      StaysOnSchedule(p, initial, longest, start, deadline, k, now);
    }
  }

  /** The loop stops for every sequence of replies. It answers with the first reply that is not told to wait,
      exactly when the schedule sends that request before the deadline, and gives up otherwise. It never sleeps
      longer than the time it has, and sends fewer requests than one plus that time divided by the first wait. */
  method Poll(p: Provider, initial: real, longest: real, start: real, deadline: real)
    returns (r: Result<Verdict, PollError>, gets: nat, slept: real)
    requires TimeFlows(p) && 0.0 < initial <= longest
    ensures Concludes(p, initial, longest, start, deadline, r, gets)
    ensures gets > 0 ==> Within(initial, longest, start, deadline, gets - 1)
    ensures slept <= if start < deadline then deadline - start else 0.0
  {
    var now, backoff := start, initial;
    gets, slept := 0, 0.0;
    ghost var wait := if start < deadline then deadline - start else 0.0;
    ghost var left := EnoughWaits(deadline - start, initial);
    while deadline - now > 0.0
      invariant backoff == Backoff(initial, longest, gets)
      invariant OnSchedule(p, initial, longest, start, deadline, gets, now)
      invariant slept <= wait && (now < deadline ==> start + slept <= now && deadline - now <= Multiple(initial, left))
      invariant gets > 0 ==> Within(initial, longest, start, deadline, gets - 1)
      decreases left
    {
      OneRound(p, initial, longest, start, deadline, gets, now);
      var exchange := p(gets);
      gets := gets + 1;
      if exchange.reply != Waiting { return exchange.reply.result, gets, slept; }
      var remaining := deadline - (now + exchange.took);
      if remaining <= 0.0 { return Err(DeadlineExceeded), gets, slept; }
      var delay := Min(backoff, remaining);
      now := now + exchange.took + delay + exchange.overslept;
      slept := slept + delay;
      backoff := Min(backoff * 2.0, longest);
      left := left - 1;
    }
    LateGivesUp(p, initial, longest, start, deadline, gets, now);
    r := Err(DeadlineExceeded);
  }
}
