/** The front-end's retry wrapper: an asynchronous call is attempted up to `maxRetries`
    times, with an exponential back-off between attempts, until it succeeds or fails with
    an error that is not worth retrying. The call is an oracle `fn` giving the outcome of
    each attempt, and the random jitter is an oracle `jitter` giving the jitter added to
    each wait. */
module Retry {
  import opened Common

  /** A thrown error: its `name` and, for an HTTP error, `response.status`. */
  datatype Failure = Failure(name: string, status: Option<int>)

  datatype Outcome<T> = Success(value: T) | Error(err: Failure)

  /** The caller's options; `None` is a field the caller leaves out. */
  datatype RetryOptions = RetryOptions(maxRetries: Option<int>, baseDelay: Option<real>, maxDelay: Option<real>,
                                       shouldRetry: Option<Failure -> bool>)

  datatype Settings = Settings(maxRetries: int, baseDelay: real, maxDelay: real, shouldRetry: Failure -> bool)

  /** The default `shouldRetry`: network errors and 5xx responses. */
  predicate DefaultShouldRetry(e: Failure)
  {
    e.name == "TypeError" || e.name == "NetworkError" || (e.status.Some? && e.status.value >= 500)
  }

  /** Which errors the default retries: a network error whatever its status, an error with
      a 5xx status whatever its name, and no other. */
  lemma DefaultRetries(e: Failure)
    ensures (e.name == "TypeError" || e.name == "NetworkError") ==> DefaultShouldRetry(e)
    ensures e.status.Some? && e.status.value >= 500 ==> DefaultShouldRetry(e)
    ensures e.name != "TypeError" && e.name != "NetworkError" && (e.status.None? || e.status.value < 500)
            ==> !DefaultShouldRetry(e)
  {
  }

  const DefaultMaxRetries := 3
  const DefaultBaseDelay := 1000.0
  const DefaultMaxDelay := 5000.0

  /** `{ ...defaultOptions, ...options }`: each option the caller gives replaces its default. */
  function Resolve(options: RetryOptions): (s: Settings)
    ensures s.maxRetries == options.maxRetries.GetOr(DefaultMaxRetries)
    ensures s.baseDelay == options.baseDelay.GetOr(DefaultBaseDelay)
    ensures s.maxDelay == options.maxDelay.GetOr(DefaultMaxDelay)
    ensures options.shouldRetry.Some? ==> s.shouldRetry == options.shouldRetry.value
    ensures options.shouldRetry.None? ==> forall e :: s.shouldRetry(e) == DefaultShouldRetry(e)
  {
    Settings(options.maxRetries.GetOr(DefaultMaxRetries), options.baseDelay.GetOr(DefaultBaseDelay),
             options.maxDelay.GetOr(DefaultMaxDelay), options.shouldRetry.GetOr(DefaultShouldRetry))
  }

  function Pow2(n: nat): (r: real)
    ensures r >= 1.0
  {
    if n == 0 then 1.0 else 2.0 * Pow2(n - 1)
  }

  /** The back-off before the attempt after attempt number `attempt`, without jitter. */
  function Backoff(s: Settings, attempt: nat): (r: real)
    ensures r <= s.maxDelay
    ensures r == s.baseDelay * Pow2(attempt) || r == s.maxDelay
  {
    var exponential := s.baseDelay * Pow2(attempt);
    if exponential < s.maxDelay then exponential else s.maxDelay
  }

  /** With a non-negative base delay the back-off never shrinks from one attempt to the next. */
  lemma BackoffGrows(s: Settings, attempt: nat)
    requires s.baseDelay >= 0.0
    ensures Backoff(s, attempt) <= Backoff(s, attempt + 1)
  {
    assert s.baseDelay * Pow2(attempt + 1) == 2.0 * (s.baseDelay * Pow2(attempt));
  }

  datatype RetryResult<T> = Returned(value: T) | Thrown(error: Option<Failure>)

  /** The attempts from number `attempt` on, given the last error so far: the result and
      the number of calls made in all. */
  function Run<T>(fn: nat -> Outcome<T>, s: Settings, attempt: nat, lastError: Option<Failure>): (RetryResult<T>, nat)
    decreases if attempt < s.maxRetries then s.maxRetries - attempt else 0
  {
    if attempt >= s.maxRetries then (Thrown(lastError), attempt)
    else
      match fn(attempt)
      case Success(v) => (Returned(v), attempt + 1)
      case Error(e) =>
        if !s.shouldRetry(e) || attempt == s.maxRetries - 1 then (Thrown(Some(e)), attempt + 1)
        else Run(fn, s, attempt + 1, Some(e))
  }

  /** What a run promises: it stops within `maxRetries` calls; every call before the last
      failed with an error worth retrying; the last call's success is returned, and its
      error is rethrown only when it is not worth retrying or no attempt is left. With no
      attempt allowed at all, the last error so far is thrown without a call. */
  lemma {:induction false} RunOutcome<T>(fn: nat -> Outcome<T>, s: Settings, attempt: nat, lastError: Option<Failure>)
    ensures var (r, calls) := Run(fn, s, attempt, lastError);
      attempt <= calls && (attempt < s.maxRetries ==> calls <= s.maxRetries) &&
      (attempt >= s.maxRetries <==> calls == attempt) &&
      (forall k | attempt <= k < calls - 1 :: fn(k).Error? && s.shouldRetry(fn(k).err)) &&
      (calls > attempt ==> (
        (r.Returned? <==> fn(calls - 1).Success?) &&
        (r.Returned? ==> r.value == fn(calls - 1).value) &&
        (r.Thrown? ==> r.error == Some(fn(calls - 1).err) &&
                       (!s.shouldRetry(fn(calls - 1).err) || calls == s.maxRetries)))) &&
      (calls == attempt ==> r == Thrown(lastError))
    decreases if attempt < s.maxRetries then s.maxRetries - attempt else 0
  {
    if attempt < s.maxRetries && fn(attempt).Error? {
      var e := fn(attempt).err;
      if s.shouldRetry(e) && attempt != s.maxRetries - 1 {
        RunOutcome(fn, s, attempt + 1, Some(e));
      }
    }
  }

  /** `withRetry`: the outcome, the number of calls of `fn`, and the waits between them. */
  method WithRetry<T>(fn: nat -> Outcome<T>, options: RetryOptions, jitter: nat -> real)
    returns (r: RetryResult<T>, calls: nat, waits: seq<real>)
    ensures (r, calls) == Run(fn, Resolve(options), 0, None)
    ensures |waits| == (if calls == 0 then 0 else calls - 1)
    ensures forall k | 0 <= k < |waits| :: waits[k] == Backoff(Resolve(options), k) + jitter(k)
  {
    var opts := Resolve(options);
    var lastError: Option<Failure> := None;
    waits := [];
    var attempt: nat := 0;
    while attempt < opts.maxRetries
      invariant Run(fn, opts, attempt, lastError) == Run(fn, opts, 0, None)
      invariant |waits| == attempt
      invariant forall k | 0 <= k < attempt :: waits[k] == Backoff(opts, k) + jitter(k)
      invariant attempt > 0 ==> attempt < opts.maxRetries
      decreases opts.maxRetries - attempt
    {
      match fn(attempt) {
        case Success(v) =>
          r, calls := Returned(v), attempt + 1;
          return;
        case Error(e) =>
          lastError := Some(e);
          if !opts.shouldRetry(e) || attempt == opts.maxRetries - 1 {
            r, calls := Thrown(Some(e)), attempt + 1;
            return;
          }
          var delay := Backoff(opts, attempt);
          waits := waits + [delay + jitter(attempt)];
      }
      attempt := attempt + 1;
    }
    r, calls := Thrown(lastError), attempt;
  }

  /** With the default options there are at most three calls, and the back-off doubles
      from 1 s until it reaches the 5 s cap. */
  lemma DefaultSchedule()
    ensures var s := Resolve(RetryOptions(None, None, None, None));
      s.maxRetries == 3 && Backoff(s, 0) == 1000.0 && Backoff(s, 1) == 2000.0 && Backoff(s, 2) == 4000.0 &&
      Backoff(s, 3) == 5000.0
  {
    assert Pow2(3) == 8.0 by {
      assert Pow2(1) == 2.0;
      assert Pow2(2) == 4.0;
    }
  }
}
