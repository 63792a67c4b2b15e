// Retrying with capped exponential backoff (conductor/retry.cc) and a loop that uses it (conductor.cc).
module Retry {
  import opened NumberTheory
  import opened Results

  // ---------- Status codes ----------

  /** IsTransientError */
  predicate IsTransient(code: StatusCode) {
    match code
    case Unavailable => true
    case DeadlineExceeded => true
    case ResourceExhausted => true
    case Aborted => true
    case _ => false
  }

  // ---------- Durations ----------

  /** absl::Duration, not negative: quarter nanoseconds, or infinite. */
  datatype Duration = Ticks(ticks: nat) | Infinite

  /** The longest finite duration: just below 2^63 seconds. */
  function MaxTicks(): nat {
    PowPositive(2, 63);
    Pow(2, 63) * 4_000_000_000 - 1
  }

  predicate AtMost(a: Duration, b: Duration) {
    b.Infinite? || (a.Ticks? && a.ticks <= b.ticks)
  }

  function Min(a: Duration, b: Duration): Duration {
    if AtMost(b, a) && !AtMost(a, b) then b else a
  }

  /** Multiplication saturates. */
  function Times(d: Duration, factor: nat): Duration {
    if d.Infinite? || d.ticks * factor > MaxTicks() then Infinite else Ticks(d.ticks * factor)
  }

  // ---------- The policy ----------

  datatype RetryPolicy = RetryPolicy(maxAttempts: int, initialBackoff: Duration, maxBackoff: Duration) {
    predicate IsValid() {
      && maxAttempts >= 1
      && AtMost(initialBackoff, maxBackoff)
      && maxBackoff.Ticks? && maxBackoff.ticks <= MaxTicks()
    }

    /** The delay before an attempt, counting attempts from 1. */
    function GetBackoff(attempt: int): Duration {
      if attempt < 2 then initialBackoff
      else
        var doublings := if attempt - 2 < 62 then attempt - 2 else 62;
        Min(Times(initialBackoff, Pow(2, doublings)), maxBackoff)
    }
  }

  /** The documented delay: the initial one doubled for every further attempt, up to the maximum. */
  function IdealBackoff(p: RetryPolicy, attempt: int): nat
    requires p.IsValid() && attempt >= 2
  {
    var doubled := p.initialBackoff.ticks * Pow(2, attempt - 2);
    if doubled < p.maxBackoff.ticks then doubled else p.maxBackoff.ticks
  }

  /** The delay is the initial one times a power of two that stops growing at 2^62, up to the maximum. */
  lemma BackoffTicks(p: RetryPolicy, attempt: int)
    requires p.IsValid() && attempt >= 2
    ensures var doublings := if attempt - 2 < 62 then attempt - 2 else 62;
            var doubled := p.initialBackoff.ticks * Pow(2, doublings);
            p.GetBackoff(attempt) == Ticks(if doubled < p.maxBackoff.ticks then doubled else p.maxBackoff.ticks)
  {
    hide Pow, MaxTicks;
  }

  lemma {:induction false} PowMonotone(b: nat, j: nat, k: nat)
    requires b >= 1 && j <= k
    ensures Pow(b, j) <= Pow(b, k)
  {
    if j < k {
      PowMonotone(b, j, k - 1);
      PowPositive(b, k - 1);
      assert b * Pow(b, k - 1) >= 1 * Pow(b, k - 1);
    }
  }

  lemma ScaledMonotone(x: nat, a: nat, b: nat)
    ensures a <= b ==> x * a <= x * b
    ensures x > 0 && a < b ==> x * a < x * b
  {
  }

  /** Capping the exponent does no harm for this policy. */
  predicate CapHarmless(p: RetryPolicy)
    requires p.IsValid()
  {
    p.initialBackoff.ticks == 0 || p.initialBackoff.ticks * Pow(2, 62) >= p.maxBackoff.ticks
  }

  /** The delays are the documented doubling for every attempt if and only if the cap does no harm. */
  lemma BackoffIsIdealIff(p: RetryPolicy)
    requires p.IsValid()
    ensures (forall attempt: int :: attempt >= 2 ==> p.GetBackoff(attempt) == Ticks(IdealBackoff(p, attempt)))
            <==> CapHarmless(p)
  {
    if CapHarmless(p) {
      forall attempt: int | attempt >= 2 ensures p.GetBackoff(attempt) == Ticks(IdealBackoff(p, attempt)) {
        BackoffIdealAt(p, attempt);
      }
    } else {
      BackoffNotIdealAt65(p);
    }
  }

  /** There are valid policies for which the cap shows: here attempt 65 waits half as long as documented. */
  lemma CapShows() returns (p: RetryPolicy)
    ensures p.IsValid() && !CapHarmless(p)
    ensures p.GetBackoff(65) == Ticks(Pow(2, 62)) && IdealBackoff(p, 65) == Pow(2, 63)
  {
    hide Pow;
    PowIncreases62();
    MaxTicksLarge();
    p := RetryPolicy(65, Ticks(1), Ticks(Pow(2, 63)));
    BackoffTicks(p, 65);
  }

  lemma MaxTicksLarge()
    ensures Pow(2, 63) <= MaxTicks()
  {
    hide Pow;
    PowPositive(2, 63);
  }

  lemma BackoffIdealAt(p: RetryPolicy, attempt: int)
    requires p.IsValid() && attempt >= 2 && CapHarmless(p)
    ensures p.GetBackoff(attempt) == Ticks(IdealBackoff(p, attempt))
  {
    hide Pow, MaxTicks;
    BackoffTicks(p, attempt);
    if attempt - 2 > 62 {
      PowMonotone(2, 62, attempt - 2);
      ScaledMonotone(p.initialBackoff.ticks, Pow(2, 62), Pow(2, attempt - 2));
    }
  }

  lemma BackoffNotIdealAt65(p: RetryPolicy)
    requires p.IsValid() && !CapHarmless(p)
    ensures p.GetBackoff(65) != Ticks(IdealBackoff(p, 65))
  {
    hide Pow, MaxTicks;
    BackoffTicks(p, 65);
    PowIncreases62();
    ScaledMonotone(p.initialBackoff.ticks, Pow(2, 62), Pow(2, 63));
  }

  lemma PowIncreases62()
    ensures Pow(2, 62) < Pow(2, 63)
  {
    PowPositive(2, 62);
  }

  /** Delays never shrink from one attempt to the next, and never exceed the maximum. */
  lemma BackoffMonotone(p: RetryPolicy, attempt: int, later: int)
    requires p.IsValid() && attempt <= later
    ensures AtMost(p.GetBackoff(attempt), p.GetBackoff(later))
    ensures AtMost(p.GetBackoff(later), p.maxBackoff)
  {
    hide Pow, MaxTicks;
    var x := p.initialBackoff.ticks;
    if later >= 2 {
      BackoffTicks(p, later);
      var k := if later - 2 < 62 then later - 2 else 62;
      var j := if attempt < 2 then 0 else if attempt - 2 < 62 then attempt - 2 else 62;
      PowMonotone(2, j, k);
      ScaledMonotone(x, Pow(2, j), Pow(2, k));
      if attempt >= 2 {
        BackoffTicks(p, attempt);
      } else {
        PowZero();
      }
    }
  }

  lemma PowZero()
    ensures Pow(2, 0) == 1
  {
  }

  // ---------- The retry loops ----------

  /** The pauses before attempts 2, ..., calls. */
  function TotalSleep(p: RetryPolicy, calls: nat): nat
    requires p.IsValid()
  {
    if calls < 2 then 0
    else
      BackoffMonotone(p, calls, calls);
      TotalSleep(p, calls - 1) + p.GetBackoff(calls).ticks
  }

  lemma {:induction false} SleepBounded(p: RetryPolicy, calls: nat)
    requires p.IsValid() && calls >= 1
    ensures TotalSleep(p, calls) <= (calls - 1) * p.maxBackoff.ticks
  {
    hide Pow, MaxTicks;
    if calls >= 2 {
      SleepBounded(p, calls - 1);
      BackoffMonotone(p, calls, calls);
      assert (calls - 1) * p.maxBackoff.ticks == (calls - 2) * p.maxBackoff.ticks + p.maxBackoff.ticks;
    }
  }

  lemma PowDoubles(k: nat)
    ensures Pow(2, k + 1) == 2 * Pow(2, k) && Pow(2, k) >= 1
  {
    PowPositive(2, k);
  }

  lemma SumDoubles(x: nat, y: nat)
    requires y >= 1
    ensures x * (y - 1) + x * y == x * (2 * y - 1)
  {
  }

  /** Before the maximum is reached, the pauses before attempts 2 to n add up to 2^(n - 1) - 1 times the initial delay. */
  lemma {:induction false} TotalSleepUncapped(p: RetryPolicy, calls: nat)
    requires p.IsValid() && 2 <= calls <= 64 && p.initialBackoff.ticks * Pow(2, calls - 2) <= p.maxBackoff.ticks
    ensures Pow(2, calls - 1) >= 1 && TotalSleep(p, calls) == p.initialBackoff.ticks * (Pow(2, calls - 1) - 1)
  {
    BackoffTicks(p, calls);
    PowDoubles(calls - 2);
    SumDoubles(p.initialBackoff.ticks, Pow(2, calls - 2));
    if calls > 2 {
      PowDoubles(calls - 3);
      ScaledMonotone(p.initialBackoff.ticks, Pow(2, calls - 3), Pow(2, calls - 2));
      hide Pow, MaxTicks, RetryPolicy.GetBackoff;
      TotalSleepUncapped(p, calls - 1);
    } else {
      assert Pow(2, 0) == 1;
    }
  }

  /**
   * The loop made `calls` calls: all but the last were retryable and followed by a pause, and the last one was not
   * retryable, or was the last allowed, or was followed by a cancellation.
   */
  ghost predicate Stops(retryable: seq<bool>, cancelled: seq<bool>, maxAttempts: int, calls: nat, wasCancelled: bool) {
    && 1 <= calls <= |retryable| && calls <= |cancelled|
    && (forall k :: 0 <= k < calls - 1 ==> retryable[k] && !cancelled[k] && k + 1 < maxAttempts)
    && (wasCancelled <==> retryable[calls - 1] && calls < maxAttempts && cancelled[calls - 1])
    && (!wasCancelled ==> !retryable[calls - 1] || calls >= maxAttempts)
  }

  lemma StopsNoEarlier(retryable: seq<bool>, cancelled: seq<bool>, maxAttempts: int, a: nat, x: bool, b: nat, y: bool)
    requires Stops(retryable, cancelled, maxAttempts, a, x) && Stops(retryable, cancelled, maxAttempts, b, y)
    ensures b <= a
  {
    var k := a - 1;
    var lastRetryable, lastCancelled := retryable[k], cancelled[k];
  }

  /** These conditions determine the number of calls. */
  lemma StopsOnce(retryable: seq<bool>, cancelled: seq<bool>, maxAttempts: int, a: nat, x: bool, b: nat, y: bool)
    requires Stops(retryable, cancelled, maxAttempts, a, x) && Stops(retryable, cancelled, maxAttempts, b, y)
    ensures a == b && x == y
  {
    StopsNoEarlier(retryable, cancelled, maxAttempts, a, x, b, y);
    StopsNoEarlier(retryable, cancelled, maxAttempts, b, y, a, x);
  }

  function TransientCodes(outcomes: seq<StatusCode>): seq<bool> {
    seq(|outcomes|, k requires 0 <= k < |outcomes| => IsTransient(outcomes[k]))
  }

  /** BackoffBeforeRetry: false without sleeping if the operation has been cancelled. */
  method BackoffBeforeRetry(policy: RetryPolicy, attempt: int, isCancelled: bool) returns (goOn: bool, slept: nat)
    requires policy.IsValid() && attempt >= 2
    ensures goOn == !isCancelled
    ensures slept == if isCancelled then 0 else policy.GetBackoff(attempt).ticks
  {
    hide MaxTicks, Pow;
    if isCancelled {
      return false, 0;
    }
    BackoffTicks(policy, attempt);
    var backoff := policy.GetBackoff(attempt);
    return true, backoff.ticks;
  }

  /** StartSimulation: outcomes[k] is the status of call k + 1 of StartSolution on the simulation service. */
  method StartSimulation(policy: RetryPolicy, outcomes: seq<StatusCode>, cancelled: seq<bool>)
    returns (status: StatusCode, calls: nat, wasCancelled: bool, slept: nat)
    requires policy.IsValid() && |outcomes| == |cancelled| == policy.maxAttempts
    ensures Stops(TransientCodes(outcomes), cancelled, policy.maxAttempts, calls, wasCancelled)
    ensures status == if wasCancelled then Cancelled else outcomes[calls - 1]
    ensures forall k :: 0 <= k < calls - 1 ==> outcomes[k] in {Unavailable, DeadlineExceeded, ResourceExhausted, Aborted}
    ensures outcomes[calls - 1] in {Unavailable, DeadlineExceeded, ResourceExhausted, Aborted} ==>
              wasCancelled || calls == policy.maxAttempts
    ensures forall k :: 0 <= k < calls - 1 ==> !cancelled[k]
    ensures wasCancelled ==> cancelled[calls - 1] && calls < policy.maxAttempts
                             && outcomes[calls - 1] in {Unavailable, DeadlineExceeded, ResourceExhausted, Aborted}
    ensures forall k :: 0 <= k < calls && outcomes[k].OkCode? ==> k == calls - 1 && status.OkCode?
    ensures slept == TotalSleep(policy, calls) <= (policy.maxAttempts - 1) * policy.maxBackoff.ticks
  {
    hide MaxTicks, Pow, TotalSleep, RetryPolicy.GetBackoff;
    var attempt := 1;
    slept := 0;
    NoSleepYet(policy);
    while true
      invariant 1 <= attempt <= policy.maxAttempts && slept == TotalSleep(policy, attempt)
      invariant forall k :: 0 <= k < attempt - 1 ==> IsTransient(outcomes[k]) && !cancelled[k]
      decreases policy.maxAttempts - attempt
    {
      status := outcomes[attempt - 1];
      SleepWithin(policy, attempt);
      if !IsTransient(status) || attempt >= policy.maxAttempts {
        return status, attempt, false, slept;
      }
      var goOn, pause := BackoffBeforeRetry(policy, attempt + 1, cancelled[attempt - 1]);
      if !goOn {
        return Cancelled, attempt, true, slept;
      }
      SleepStep(policy, attempt);
      slept := slept + pause;
      attempt := attempt + 1;
    }
  }

  lemma NoSleepYet(p: RetryPolicy)
    requires p.IsValid()
    ensures TotalSleep(p, 1) == 0
  {
    hide MaxTicks, Pow;
  }

  lemma SleepStep(p: RetryPolicy, attempt: nat)
    requires p.IsValid() && attempt >= 1
    ensures p.GetBackoff(attempt + 1).Ticks?
    ensures TotalSleep(p, attempt + 1) == TotalSleep(p, attempt) + p.GetBackoff(attempt + 1).ticks
  {
    hide MaxTicks, Pow;
    BackoffMonotone(p, attempt + 1, attempt + 1);
  }

  lemma SleepWithin(p: RetryPolicy, calls: nat)
    requires p.IsValid() && 1 <= calls <= p.maxAttempts
    ensures TotalSleep(p, calls) <= (p.maxAttempts - 1) * p.maxBackoff.ticks
  {
    hide MaxTicks, Pow, TotalSleep;
    SleepBounded(p, calls);
    ScaledMonotone(p.maxBackoff.ticks, calls - 1, p.maxAttempts - 1);
  }
}
