/** The retry policy of backend/app/workers/notification/tasks.py. */
module Notification {
  import opened Prelude

  const MAX_RETRIES := 3
  const RETRY_BACKOFF_BASE_SECONDS := 60
  const RETRY_BACKOFF_MAX_SECONDS := 3600
  const RATE_LIMIT_FALLBACK_SECONDS := 60

  function Power2(n: nat): nat {
    if n == 0 then 1 else 2 * Power2(n - 1)
  }

  function Max0(n: int): nat {
    if n > 0 then n else 0
  }

  function BackoffCountdown(retriesDone: int): nat {
    var raw := RETRY_BACKOFF_BASE_SECONDS * Power2(Max0(retriesDone));
    if raw <= RETRY_BACKOFF_MAX_SECONDS then raw else RETRY_BACKOFF_MAX_SECONDS
  }

  /** A response header; `seconds` is its value read as an integer, if it reads as one. */
  datatype Header = Header(name: string, seconds: Option<int>)

  predicate IsRetryAfter(h: Header) {
    Lower(h.name) == "retry-after"
  }

  /** The first Retry-After header decides, even if its value does not parse. */
  function RetryAfter(headers: seq<Header>): int {
    if headers == [] then RATE_LIMIT_FALLBACK_SECONDS
    else if IsRetryAfter(headers[0]) then
      if headers[0].seconds.Some? then headers[0].seconds.value else RATE_LIMIT_FALLBACK_SECONDS
    else RetryAfter(headers[1..])
  }

  method RetryAfterSeconds(headers: seq<Header>) returns (seconds: int)
    ensures seconds == RetryAfter(headers)
  {
    for i := 0 to |headers|
      invariant RetryAfter(headers) == RetryAfter(headers[i..])
    {
      if IsRetryAfter(headers[i]) {
        if headers[i].seconds.Some? {
          return headers[i].seconds.value;
        }
        return RATE_LIMIT_FALLBACK_SECONDS;
      }
    }
    return RATE_LIMIT_FALLBACK_SECONDS;
  }

  /** What the SendGrid client does: accept the mail, or fail with an HTTP status or with none. */
  datatype SendResult = Accepted | Failed(status: Option<int>, headers: seq<Header>)

  datatype Dispatched = Sent | PermanentFailure | RetryIn(countdown: int) | RetriesExhausted

  predicate RateLimited(r: SendResult) {
    r.Failed? && r.status == Some(429)
  }

  predicate Permanent(r: SendResult) {
    r.Failed? && r.status.Some? && 400 <= r.status.value < 500 && r.status.value != 429
  }

  predicate Transient(r: SendResult) {
    r.Failed? && !RateLimited(r) && !Permanent(r)
  }

  /** A 429, any status that is not a 4xx, or no status at all. */
  predicate MayBeRetried(r: SendResult) {
    r.Failed? && (r.status.None? || r.status.value == 429 || r.status.value < 400 || 500 <= r.status.value)
  }

  /** `task.retry` raises the retry signal while retries are left, else the failure itself. */
  function Retried(retries: nat, countdown: int): Dispatched {
    if retries < MAX_RETRIES then RetryIn(countdown) else RetriesExhausted
  }

  /** What one execution of an e-mail job ends in. */
  function Outcome(retries: nat, result: SendResult): Dispatched {
    if result.Accepted? then Sent
    else if RateLimited(result) then Retried(retries, RetryAfter(result.headers))
    else if Permanent(result) then PermanentFailure
    else Retried(retries, BackoffCountdown(retries))
  }

  /** Header `i` is the first that reads Retry-After, in whatever case. */
  predicate FirstRetryAfterAt(headers: seq<Header>, i: nat) {
    i < |headers| && SameUpToCase(headers[i].name, "retry-after")
    && forall k | 0 <= k < i :: !SameUpToCase(headers[k].name, "retry-after")
  }

  /** How long a 429 asks to wait: as many seconds as its first Retry-After header says, and 60 if there is none
      or it is not a number. */
  predicate AsksToWait(headers: seq<Header>, seconds: int) {
    && (forall i: nat | i < |headers| && FirstRetryAfterAt(headers, i) ::
          seconds == if headers[i].seconds.Some? then headers[i].seconds.value else 60)
    && ((forall i | 0 <= i < |headers| :: !SameUpToCase(headers[i].name, "retry-after")) ==> seconds == 60)
  }

  lemma IsRetryAfterIgnoresCase(h: Header)
    ensures IsRetryAfter(h) <==> SameUpToCase(h.name, "retry-after")
  {
    assert Lower("retry-after") == "retry-after";
    LowersAlikeIff(h.name, "retry-after");
  }

  lemma {:induction false} RetryAfterMeans(headers: seq<Header>)
    ensures AsksToWait(headers, RetryAfter(headers))
  {
    if headers != [] {
      IsRetryAfterIgnoresCase(headers[0]);
      RetryAfterMeans(headers[1..]);
      forall i: nat | i < |headers| && FirstRetryAfterAt(headers, i)
        ensures RetryAfter(headers) == if headers[i].seconds.Some? then headers[i].seconds.value else 60
      {
        if i > 0 {
          assert forall k | 0 <= k < i - 1 :: headers[1..][k] == headers[k + 1];
          assert FirstRetryAfterAt(headers[1..], i - 1);
        }
      }
      assert forall k | 0 <= k < |headers| - 1 :: headers[1..][k] == headers[k + 1];
    }
  }

  /** The backoff of a retry: 60 seconds doubled for every retry before it, and at most an hour. */
  predicate BacksOff(retriesDone: nat, seconds: int) {
    seconds == if 60 * Power2(retriesDone) < 3600 then 60 * Power2(retriesDone) else 3600
  }

  /** What an execution promises the queue it runs in. */
  predicate KeepsPolicy(retries: nat, result: SendResult, d: Dispatched) {
    && (d.Sent? <==> result.Accepted?)
    && (d.PermanentFailure? <==>
          result.Failed? && result.status.Some? && 400 <= result.status.value < 500 && result.status.value != 429)
    && (d.RetryIn? <==> MayBeRetried(result) && retries < 3)
    && (d.RetriesExhausted? <==> MayBeRetried(result) && retries >= 3)
    && (d.RetryIn? && result.status == Some(429) ==> AsksToWait(result.headers, d.countdown))
    && (d.RetryIn? && result.status != Some(429) ==> BacksOff(retries, d.countdown))
  }

  /** The policy leaves no choice. */
  lemma PolicyDecides(retries: nat, result: SendResult, d: Dispatched)
    ensures KeepsPolicy(retries, result, d) <==> d == Outcome(retries, result)
  {
    if result.Failed? {
      RetryAfterMeans(result.headers);
      WaitIsUnique(result.headers);
    }
  }

  lemma {:induction false} WaitIsUnique(headers: seq<Header>)
    ensures forall a, b | AsksToWait(headers, a) && AsksToWait(headers, b) :: a == b
  {
    if i: nat :| i < |headers| && FirstRetryAfterAt(headers, i) {
    } else {
      forall i | 0 <= i < |headers| ensures !SameUpToCase(headers[i].name, "retry-after") {
        NoFirstMeansNone(headers, i);
      }
    }
  }

  lemma {:induction false} NoFirstMeansNone(headers: seq<Header>, i: nat)
    requires i < |headers| && forall k: nat | k < |headers| :: !FirstRetryAfterAt(headers, k)
    ensures forall k | 0 <= k <= i :: !SameUpToCase(headers[k].name, "retry-after")
  {
    if i > 0 {
      NoFirstMeansNone(headers, i - 1);
    }
    assert !FirstRetryAfterAt(headers, i);
  }

  method Dispatch(retries: nat, result: SendResult) returns (d: Dispatched)
    ensures KeepsPolicy(retries, result, d)
  {
    PolicyDecides(retries, result, Outcome(retries, result));
    if result.Accepted? {
      return Sent;
    }
    if result.status == Some(429) {
      var countdown := RetryAfterSeconds(result.headers);
      return Retried(retries, countdown);
    }
    if result.status.Some? && 400 <= result.status.value < 500 {
      return PermanentFailure;
    }
    return Retried(retries, BackoffCountdown(retries));
  }

  // ---- A whole job  ----------------------------------------------------------------------

  datatype Trace = Trace(sends: nat, waited: int, end: Dispatched)

  /** The job from its `retries`-th retry on, against SendGrid answering `results`. */
  function TaskFrom(results: nat -> SendResult, retries: nat): Trace
    requires retries <= MAX_RETRIES
    decreases MAX_RETRIES - retries
  {
    match Outcome(retries, results(retries))
    case RetryIn(countdown) =>
      var t := TaskFrom(results, retries + 1);
      t.(sends := t.sends + 1, waited := t.waited + countdown)
    case end => Trace(1, 0, end)
  }

  /** At most four sends; the job ends as its last send did; and it gives up only after the fourth. */
  lemma {:induction false} SendsAreBounded(results: nat -> SendResult, retries: nat)
    requires retries <= MAX_RETRIES
    ensures var t := TaskFrom(results, retries); var last := results(retries + t.sends - 1);
            && 1 <= t.sends <= 4 - retries
            && (t.end.Sent? <==> last.Accepted?)
            && (t.end.PermanentFailure? <==> Permanent(last))
            && (t.end.RetriesExhausted? ==> retries + t.sends == 4)
    decreases MAX_RETRIES - retries
  {
    if retries < MAX_RETRIES {
      SendsAreBounded(results, retries + 1);
    }
  }

  /** Every send but the last got an answer that may be retried: none follows an acceptance or a
      permanent failure. */
  lemma {:induction false} OnlyRetriableAnswersAreRetried(results: nat -> SendResult, retries: nat, k: nat)
    requires retries <= MAX_RETRIES && k + 1 < TaskFrom(results, retries).sends
    ensures MayBeRetried(results(retries + k))
    decreases k
  {
    if k > 0 {
      OnlyRetriableAnswersAreRetried(results, retries + 1, k - 1);
    }
  }

  /** Not only server errors are retried: every answer outside 400 to 499 is, a redirect included. */
  lemma RedirectsAreRetried(results: nat -> SendResult, status: int)
    requires 300 <= status < 400 && results(0).Failed? && results(0).status == Some(status)
    ensures TaskFrom(results, 0).sends >= 2
  {
    SendsAreBounded(results, 1);
  }

  lemma {:induction false} Power2Monotone(a: nat, b: nat)
    requires a <= b
    ensures 1 <= Power2(a) <= Power2(b)
    decreases b
  {
    if a < b {
      Power2Monotone(a, b - 1);
    } else if a > 0 {
      Power2Monotone(a - 1, a - 1);
    }
  }

  /** The backoff never shrinks, and reaches its cap exactly from the sixth retry on. */
  lemma BackoffIsMonotone(a: int, b: int)
    requires a <= b
    ensures BackoffCountdown(a) <= BackoffCountdown(b)
    ensures BackoffCountdown(a) == 3600 <==> a >= 6
    ensures a <= 5 ==> BackoffCountdown(a) == 60 * Power2(Max0(a))
  {
    Power2Monotone(Max0(a), Max0(b));
    assert Power2(5) == 32 && Power2(6) == 64;
    if a >= 6 {
      Power2Monotone(6, a);
    } else {
      Power2Monotone(Max0(a), 5);
    }
  }

  /** Without rate limiting a job waits at most 420 seconds in all, and exactly that if nothing
      ever gets through. */
  lemma BackoffTotal(results: nat -> SendResult)
    requires forall k | 0 <= k <= MAX_RETRIES :: !RateLimited(results(k))
    ensures 0 <= TaskFrom(results, 0).waited <= 420
    ensures (forall k | 0 <= k <= MAX_RETRIES :: Transient(results(k))) ==>
              TaskFrom(results, 0) == Trace(4, 420, RetriesExhausted)
  {
    assert Power2(0) == 1 && Power2(1) == 2 && Power2(2) == 4;
    var t3 := TaskFrom(results, 3);
    var t2 := TaskFrom(results, 2);
    assert t3.waited == 0 && 0 <= t2.waited <= 240;
    var t1 := TaskFrom(results, 1);
    assert 0 <= t1.waited <= 360;
  }
}
