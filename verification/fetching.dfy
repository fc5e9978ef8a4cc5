/**
 * safe_request (scrapping_utils.py:27-41): up to `max_retries` GET attempts,
 * returning the first successful response, sleeping `2 ** attempt` seconds
 * after every failed attempt except the last one, and returning None when
 * every attempt fails.
 *
 * The network is a parameter: `get(k)` is the outcome of attempt number k
 * (a response, or a `RequestException` including a 4xx or 5xx status raised
 * by `raise_for_status`). Instead of sleeping, the method reports how many
 * attempts it made (each one preceded by the fixed politeness delay) and the
 * list of backoff durations it would have slept, in seconds.
 */
module Fetching {
  import opened Optional
  import Config

  datatype Response<P> = Ok(page: P) | Failed

  function Pow2(k: nat): (p: nat)
    ensures p >= 1
  {
    if k == 0 then 1 else 2 * Pow2(k - 1)
  }

  /** The backoff sleeps taken after failed attempts 0 .. n-1: 1, 2, 4, ..., 2^(n-1). */
  function Backoffs(n: nat): (b: seq<nat>)
    ensures |b| == n
  {
    if n == 0 then [] else Backoffs(n - 1) + [Pow2(n - 1)]
  }

  /** The k-th backoff sleep lasts 2^k seconds. */
  lemma {:induction false} BackoffAt(n: nat, k: nat)
    requires k < n
    ensures Backoffs(n)[k] == Pow2(k)
  {
    if k < n - 1 {
      BackoffAt(n - 1, k);
    }
  }

  function Sum(s: seq<nat>): nat
  {
    if s == [] then 0 else Sum(s[..|s| - 1]) + s[|s| - 1]
  }

  /** Total time spent in backoff before attempt k starts: 2^k - 1 seconds. */
  lemma {:induction false} BackoffTotal(k: nat)
    ensures Sum(Backoffs(k)) == Pow2(k) - 1
  {
    if k > 0 {
      var b := Backoffs(k);
      assert Sum(b) == Sum(Backoffs(k - 1)) + Pow2(k - 1) by {
        assert b[..k - 1] == Backoffs(k - 1);
      }
      BackoffTotal(k - 1);
    }
  }

  method SafeRequest<P>(get: nat -> Response<P>, maxRetries: int)
    returns (response: Option<P>, attempts: nat, backoffs: seq<nat>)
    // never more than max_retries attempts, none at all when max_retries <= 0
    ensures attempts <= if maxRetries > 0 then maxRetries else 0
    // every attempt but the last one failed
    ensures forall k: nat :: k + 1 < attempts ==> get(k).Failed?
    // a response is returned exactly when one of the max_retries attempts succeeds,
    // and it is the response of the first success, which ends the attempts
    ensures response.Some? <==> exists k: nat :: k < maxRetries && get(k).Ok?
    ensures response.Some? ==> attempts >= 1 && get(attempts - 1) == Ok(response.value)
    ensures response.None? ==> attempts == (if maxRetries > 0 then maxRetries else 0)
    ensures response.None? ==> forall k: nat :: k < attempts ==> get(k).Failed?
    // backoff follows every failed attempt except the last one
    ensures attempts == 0 ==> backoffs == []
    ensures attempts > 0 ==> backoffs == Backoffs(attempts - 1)
    ensures attempts > 0 ==> Sum(backoffs) == Pow2(attempts - 1) - 1
  {
    response, attempts, backoffs := None, 0, [];
    var attempt: nat := 0;
    while attempt < maxRetries
      invariant attempts == attempt
      invariant attempt < maxRetries || attempt == 0
      invariant backoffs == Backoffs(attempt)
      invariant forall k: nat :: k < attempt ==> get(k).Failed?
      decreases maxRetries - attempt
    {
      attempts := attempts + 1;
      match get(attempt)
      case Ok(page) =>
        response := Some(page);
        BackoffTotal(attempt);
        return;
      case Failed =>
        if attempt == maxRetries - 1 {
          BackoffTotal(attempt);
          return;
        }
        backoffs := backoffs + [Pow2(attempt)];
        attempt := attempt + 1;
    }
  }

  /**
   * With the default RETRY_ATTEMPTS, an endpoint that always fails is tried
   * three times, with 1 + 2 seconds of backoff, and yields None.
   */
  method AlwaysFailingEndpoint<P>() returns (response: Option<P>, attempts: nat, backoffs: seq<nat>)
    ensures response == None && attempts == 3 && backoffs == [1, 2]
  {
    response, attempts, backoffs := SafeRequest((k: nat) => Failed, Config.RetryAttempts);
  }
}
