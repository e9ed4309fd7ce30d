/**
 * `withRetry`: call an operation up to `maxRetries` times, stop at the first
 * success or at a client error that retrying cannot fix, and wait an
 * exponentially growing time between attempts.
 *
 * The operation is given as the outcome of each attempt (`operation(k)` for the
 * k-th attempt, counting from 1), and the waits are returned instead of slept.
 */
module Retry {
  import opened Wrappers

  /**
   * What a failed attempt threw: the HTTP status of `error.response`, or none
   * for network errors, timeouts and the service's own "no valid question"
   * errors.
   */
  datatype Failure = Failure(status: Option<int>)

  datatype Outcome<T> = Ok(value: T) | Err(failure: Failure)

  /** How a call settles: with a value, or by throwing; `Threw(None)` is `throw undefined`. */
  datatype Settled<T> = Returned(value: T) | Threw(error: Option<Failure>)

  /**
   * A 4xx status other than 429 ends the retries at once. A missing status is
   * never permanent: `undefined >= 400` is false in JavaScript.
   */
  predicate IsPermanent(f: Failure) {
    f.status.Some? && 400 <= f.status.value < 500 && f.status.value != 429
  }

  /** The attempt ends the loop: it succeeded or failed permanently. */
  predicate Stops<T>(o: Outcome<T>) {
    o.Ok? || IsPermanent(o.failure)
  }

  /** How the last attempt settles the call. */
  function SettledBy<T>(o: Outcome<T>): Settled<T> {
    match o
    case Ok(v) => Returned(v)
    case Err(f) => Threw(Some(f))
  }

  /** `Math.pow(2, n)` for a natural `n`. */
  function Pow2(n: nat): (r: nat)
    ensures r >= 1
  {
    if n == 0 then 1 else 2 * Pow2(n - 1)
  }

  /**
   * How `withRetry` settles when the loop is at attempt `attempt`, and how
   * many calls it has made by then: it calls the operation, and returns or
   * throws on success, on a permanent failure and on the last allowed
   * attempt; with no attempt allowed it throws `undefined`.
   */
  function RetryRun<T>(operation: nat -> Outcome<T>, maxRetries: int, attempt: nat): (Settled<T>, nat)
    requires attempt >= 1
    decreases maxRetries - attempt
  {
    if attempt > maxRetries then (Threw(None), 0)
    else
      var o := operation(attempt);
      if Stops(o) || attempt == maxRetries then (SettledBy(o), attempt)
      else RetryRun(operation, maxRetries, attempt + 1)
  }

  /**
   * What `withRetry` promises: at most `maxRetries` calls, every call but the
   * last failing transiently, the last one succeeding, failing permanently or
   * being call number `maxRetries`, and the last call deciding the result;
   * with `maxRetries <= 0`, no call and `undefined` thrown.
   */
  lemma {:induction false} RetryRunCharacterised<T>(operation: nat -> Outcome<T>, maxRetries: int, attempt: nat)
    requires 1 <= attempt
    requires attempt <= maxRetries || attempt == 1
    ensures var (result, attempts) := RetryRun(operation, maxRetries, attempt);
      && (maxRetries <= 0 ==> attempts == 0 && result == Threw(None))
      && (maxRetries > 0 ==> attempt <= attempts <= maxRetries)
      && (forall k :: attempt <= k < attempts ==> !Stops(operation(k)))
      && (attempts > 0 ==> (Stops(operation(attempts)) || attempts == maxRetries) && result == SettledBy(operation(attempts)))
    decreases maxRetries - attempt
  {
    if attempt <= maxRetries && !Stops(operation(attempt)) && attempt != maxRetries {
      RetryRunCharacterised(operation, maxRetries, attempt + 1);
    }
  }

  /**
   * The `for` loop of `withRetry`: it settles as `RetryRun` says, and after
   * failed call `k` (not the last) it waited `delay * 2^(k-1)`.
   */
  method WithRetry<T>(operation: nat -> Outcome<T>, maxRetries: int, delay: int)
    returns (result: Settled<T>, attempts: nat, waits: seq<int>)
    ensures (result, attempts) == RetryRun(operation, maxRetries, 1)
    ensures |waits| == if attempts == 0 then 0 else attempts - 1
    ensures forall k :: 0 <= k < |waits| ==> waits[k] == delay * Pow2(k)
  {
    var lastError: Option<Failure> := None;
    attempts := 0;
    waits := [];
    var attempt := 1;
    while attempt <= maxRetries
      invariant 1 <= attempt && attempts == attempt - 1
      invariant attempt == 1 || attempt <= maxRetries
      invariant attempt == 1 ==> lastError == None
      invariant RetryRun(operation, maxRetries, 1) == RetryRun(operation, maxRetries, attempt)
      invariant |waits| == attempt - 1
      invariant forall k :: 0 <= k < |waits| ==> waits[k] == delay * Pow2(k)
      decreases maxRetries - attempt
    {
      attempts := attempt;
      var outcome := operation(attempt);
      match outcome {
        case Ok(v) =>
          return Returned(v), attempts, waits;
        case Err(f) =>
          lastError := Some(f);
          if IsPermanent(f) {
            return Threw(Some(f)), attempts, waits;
          }
          if attempt == maxRetries {
            return Threw(lastError), attempts, waits;
          }
          waits := waits + [delay * Pow2(attempt - 1)];
      }
      attempt := attempt + 1;
    }
    result := Threw(lastError);
  }

  /** A returned value is the value of one of the attempts. */
  lemma {:induction false} RetryRunReturnsAttempt<T>(operation: nat -> Outcome<T>, maxRetries: int, attempt: nat)
    requires attempt >= 1
    ensures var (result, attempts) := RetryRun(operation, maxRetries, attempt);
      result.Returned? ==> attempts >= 1 && operation(attempts) == Ok(result.value)
    decreases maxRetries - attempt
  {
    if attempt <= maxRetries && !Stops(operation(attempt)) && attempt != maxRetries {
      RetryRunReturnsAttempt(operation, maxRetries, attempt + 1);
    }
  }

  function Sum(xs: seq<int>): int {
    if xs == [] then 0 else Sum(xs[..|xs| - 1]) + xs[|xs| - 1]
  }

  /**
   * The waits add up to `delay * (2^n - 1)` after `n` waits, so a call that
   * succeeds at attempt `N` has waited `delay * (2^(N-1) - 1)` in total.
   */
  lemma {:induction false} TotalWait(waits: seq<int>, delay: int)
    requires forall k :: 0 <= k < |waits| ==> waits[k] == delay * Pow2(k)
    ensures Sum(waits) == delay * (Pow2(|waits|) - 1)
    decreases |waits|
  {
    if waits != [] {
      var n := |waits| - 1;
      TotalWait(waits[..n], delay);
      assert Sum(waits) == delay * (Pow2(n) - 1) + delay * Pow2(n);
      assert Pow2(n + 1) == 2 * Pow2(n);
    }
  }

  /** Errors without a status, such as "no valid question", are retried until the attempts run out. */
  lemma StatuslessFailuresRetried<T>(o: Outcome<T>)
    requires o.Err? && o.failure.status == None
    ensures !Stops(o)
  {
  }
}
