/** Job lifecycle arithmetic: states, transitions, leases and backoff. */
module Retries {
  import opened Wrappers

  /** Microseconds on the one clock every party reads. */
  type Instant = int

  const SECOND: int := 1_000_000
  const BASE_BACKOFF_SECONDS: int := 60
  const MAX_BACKOFF_SECONDS: int := 21_600
  const MAX_ERROR_LENGTH: nat := 2_000

  datatype JobState = Queued | Running | RetryWait | WaitingReview | Completed | FailedReview | Cancelled

  datatype ErrorClass = Retryable | Permanent

  datatype JobTransition = JobTransition(
    state: JobState,
    attempts: nat,
    nextAttemptAt: Option<Instant>,
    leaseExpiresAt: Option<Instant>,
    lastError: Option<string>)

  predicate Terminal(s: JobState) {
    s in {Completed, FailedReview, Cancelled}
  }

  predicate Claimable(s: JobState) {
    s in {Queued, RetryWait}
  }

  function Min(a: int, b: int): int {
    if a <= b then a else b
  }

  function Max(a: int, b: int): int {
    if a >= b then a else b
  }

  function Pow2(n: nat): nat {
    if n == 0 then 1 else 2 * Pow2(n - 1)
  }

  /** Delay in seconds before attempt `attempts` + 1. */
  function BackoffSeconds(attempts: int): int {
    if attempts < 1 then BASE_BACKOFF_SECONDS
    else Min(BASE_BACKOFF_SECONDS * Pow2(attempts - 1), MAX_BACKOFF_SECONDS)
  }

  function LeaseExpiry(leaseSeconds: nat, now: Instant): Instant {
    now + leaseSeconds * SECOND
  }

  /** A missing lease counts as expired. */
  predicate IsLeaseExpired(leaseExpiresAt: Option<Instant>, now: Instant) {
    leaseExpiresAt.None? || leaseExpiresAt.value <= now
  }

  predicate IsDue(state: JobState, nextAttemptAt: Option<Instant>, now: Instant) {
    Claimable(state) && (nextAttemptAt.None? || nextAttemptAt.value <= now)
  }

  function Claim(state: JobState, attempts: nat, leaseSeconds: nat, nextAttemptAt: Option<Instant>, now: Instant):
    Option<JobTransition>
  {
    if !IsDue(state, nextAttemptAt, now) then None
    else Some(JobTransition(Running, attempts + 1, None, Some(LeaseExpiry(leaseSeconds, now)), None))
  }

  function Succeed(attempts: nat): JobTransition {
    JobTransition(Completed, attempts, None, None, None)
  }

  function Fail(attempts: nat, error: string, errorClass: ErrorClass, maxAttempts: int, now: Instant): JobTransition {
    var truncated := if |error| <= MAX_ERROR_LENGTH then error else error[..MAX_ERROR_LENGTH];
    if errorClass == Permanent || attempts >= maxAttempts then
      JobTransition(FailedReview, attempts, None, None, Some(truncated))
    else
      JobTransition(RetryWait, attempts, Some(now + BackoffSeconds(attempts) * SECOND), None, Some(truncated))
  }

  // ---- Backoff ----

  lemma {:induction false} Pow2Positive(n: nat)
    ensures Pow2(n) >= 1
  {
    if n > 0 { Pow2Positive(n - 1); }
  }

  lemma {:induction false} Pow2Monotone(a: nat, b: nat)
    requires a <= b
    ensures Pow2(a) <= Pow2(b)
  {
    if a < b {
      Pow2Monotone(a, b - 1);
      Pow2Positive(b - 1);
    }
  }

  /** The curve never leaves one minute .. six hours, and never shortens. */
  lemma BackoffShape(a: int, b: int)
    requires a <= b
    ensures BASE_BACKOFF_SECONDS <= BackoffSeconds(a) <= BackoffSeconds(b) <= MAX_BACKOFF_SECONDS
  {
    if a >= 1 {
      Pow2Positive(a - 1);
      Pow2Monotone(a - 1, b - 1);
    } else if b >= 1 {
      Pow2Positive(b - 1);
    }
  }

  /** Seconds spent waiting after the first `n` failed attempts. */
  function TotalBackoff(n: nat): int {
    if n == 0 then 0 else TotalBackoff(n - 1) + BackoffSeconds(n)
  }

  lemma DoublesUntilTen(n: nat)
    requires 1 <= n
    ensures n <= 9 ==> BackoffSeconds(n) == 60 * Pow2(n - 1)
    ensures n > 9 ==> BackoffSeconds(n) == MAX_BACKOFF_SECONDS
  {
    assert Pow2(8) == 256 && Pow2(9) == 512 by {
      assert Pow2(2) == 4; assert Pow2(4) == 16; assert Pow2(6) == 64;
    }
    if n <= 9 { Pow2Monotone(n - 1, 8); } else { Pow2Monotone(9, n - 1); }
  }

  /** Closed form: the wait doubles for nine failures and is then flat at the cap. */
  lemma {:induction false} TotalBackoffClosedForm(n: nat)
    ensures n <= 9 ==> TotalBackoff(n) == 60 * (Pow2(n) - 1)
    ensures n > 9 ==> TotalBackoff(n) == 30_660 + 21_600 * (n - 9)
  {
    if n > 0 {
      TotalBackoffClosedForm(n - 1);
      DoublesUntilTen(n);
      if n == 10 {
        assert Pow2(9) == 512 by {
          assert Pow2(2) == 4; assert Pow2(4) == 16; assert Pow2(6) == 64; assert Pow2(8) == 256;
        }
      }
    }
  }
}
