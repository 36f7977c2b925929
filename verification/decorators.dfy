/**
  The `retry` decorator (domain/utils/decorators.py): up to `max_retries`
  calls of the wrapped function, a pause between failed attempts, and the
  last exception raised when every attempt fails.

  The wrapped function is the parameter `call`: `call(i)` is what the i-th
  attempt (counting from 1) returns or raises. `retryOn` says whether an
  exception belongs to the `retry_on` tuple. The pauses are returned rather
  than slept.
*/
module Decorators {

  /** What one call of the wrapped function does. */
  datatype Attempt<T, E> = Returned(value: T) | Raised(error: E)

  /**
    How the decorated call ends: a value, an exception, or (with no attempt
    made) `raise None`, which Python turns into a `TypeError`.
  */
  datatype Outcome<T, E> = Value(value: T) | Error(error: E) | RaisedNone

  /** The decorator's defaults: `max_retries=3`, `delay=1.0`, `retry_on=(Exception,)`. */
  const DEFAULT_MAX_RETRIES := 3
  const DEFAULT_DELAY := 1.0

  /** `retry_on=(Exception,)`: every exception is retried. */
  predicate AnyException<E>(e: E) {
    true
  }

  /** An attempt after which the loop stops: it returned, or raised what is not retried. */
  predicate Settles<T, E>(a: Attempt<T, E>, retryOn: E -> bool) {
    a.Returned? || !retryOn(a.error)
  }

  /**
    `retry(max_retries, delay, retry_on)(func)()`: attempts run from 1 up to
    `max_retries` while each raises a retried exception; the first value is
    returned, the first exception not retried propagates at once, and when
    every attempt raised a retried exception the last one is raised. A pause
    of `delay` follows every failed attempt except the last one allowed.
  */
  method Retry<T(==), E(==)>(maxRetries: int, delay: real, call: nat -> Attempt<T, E>, retryOn: E -> bool)
    returns (r: Outcome<T, E>, attempts: nat, sleeps: seq<real>)
    ensures maxRetries < 1 ==> r == RaisedNone && attempts == 0
    ensures maxRetries >= 1 ==> 1 <= attempts <= maxRetries
    ensures forall i | 1 <= i < attempts :: !Settles(call(i), retryOn)
    ensures attempts >= 1 && attempts < maxRetries ==> Settles(call(attempts), retryOn)
    ensures attempts >= 1 && call(attempts).Returned? ==> r == Value(call(attempts).value)
    ensures attempts >= 1 && call(attempts).Raised? ==> r == Error(call(attempts).error)
    ensures |sleeps| == if attempts == 0 then 0 else attempts - 1
    ensures forall i | 0 <= i < |sleeps| :: sleeps[i] == delay
  {
    var lastException: Outcome<T, E> := RaisedNone;
    sleeps := [];
    var attempt: nat := 1;
    while attempt <= maxRetries
      invariant 1 <= attempt && (maxRetries >= 1 ==> attempt <= maxRetries + 1) && (maxRetries < 1 ==> attempt == 1)
      invariant forall i | 1 <= i < attempt :: !Settles(call(i), retryOn)
      invariant attempt == 1 ==> lastException == RaisedNone
      invariant attempt > 1 ==> lastException == Error(call(attempt - 1).error)
      invariant |sleeps| == if attempt == 1 then 0 else if attempt - 1 < maxRetries then attempt - 1 else attempt - 2
      invariant forall i | 0 <= i < |sleeps| :: sleeps[i] == delay
      decreases maxRetries - attempt
    {
      match call(attempt)
      case Returned(v) =>
        return Value(v), attempt, sleeps;
      case Raised(e) =>
        if !retryOn(e) {
          return Error(e), attempt, sleeps;
        }
        lastException := Error(e);
        if attempt < maxRetries {
          sleeps := sleeps + [delay];
        }
      attempt := attempt + 1;
    }
    return lastException, attempt - 1, sleeps;
  }

  /**
    `@retry()` with its defaults: at most three attempts, a value or an
    exception always comes out, and at most two pauses of one second. The
    outcome is what the last attempt returned or raised.
  */
  method RetryWithDefaults<T(==), E(==)>(call: nat -> Attempt<T, E>)
    returns (r: Outcome<T, E>, attempts: nat, sleeps: seq<real>)
    ensures 1 <= attempts <= DEFAULT_MAX_RETRIES && r != RaisedNone
    ensures attempts < DEFAULT_MAX_RETRIES ==> call(attempts).Returned?
    ensures forall i | 1 <= i < attempts :: call(i).Raised?
    ensures |sleeps| == attempts - 1 && forall i | 0 <= i < |sleeps| :: sleeps[i] == DEFAULT_DELAY
    ensures call(attempts).Returned? ==> r == Value(call(attempts).value)
    ensures call(attempts).Raised? ==> r == Error(call(attempts).error)
  {
    r, attempts, sleeps := Retry(DEFAULT_MAX_RETRIES, DEFAULT_DELAY, call, AnyException);
  }
}
