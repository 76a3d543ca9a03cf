/**
  The download retry loop. What the network does is given from outside, attempt by attempt: which
  chunks arrive, when the caller asks to stop, and how the transfer ends.
 */
module HttpDownload {
  import opened Numbers
  import opened Machine

  // ---------- What the network does ----------

  datatype CurlCode =
    | CurlOk | OperationTimedOut | CouldntConnect | CouldntResolveHost | AbortedByCallback | OtherCode

  /** A callback of the transfer, and whether the stop token has fired when it is called. */
  datatype Event = Chunk(bytes: seq<Byte>, stop: bool) | Progress(stop: bool)

  /** One transfer: its callbacks (those after an abort never happen), its result, its times in
      microseconds, and the stop token afterwards. */
  datatype Transfer = Transfer(events: seq<Event>, code: CurlCode, status: int, ttfb: nat, duration: nat, stop: bool)

  datatype Metrics = Metrics(ttfb: nat, totalDuration: nat, bytesDownloaded: nat)

  const NO_METRICS := Metrics(0, 0, 0)

  datatype Strategy = NoBackoff | Fixed | Exponential

  /** Delays in milliseconds. */
  datatype RetryPolicy = RetryPolicy(maxRetries: UInt32, initialDelay: nat, maxDelay: nat, strategy: Strategy)

  const UNKNOWN: int := -1
  const TOO_MANY_REQUESTS: int := 429

  /** Conversion to a 16-bit signed integer. */
  function Narrow(n: int): (r: int)
    ensures -0x8000 <= r < 0x8000 && (r - n) % 0x1_0000 == 0
    ensures -0x8000 <= n < 0x8000 ==> r == n
  {
    (n + 0x8000) % 0x1_0000 - 0x8000
  }

  predicate IsSuccess(status: int) {
    200 <= status < 300
  }

  predicate IsTransientError(code: CurlCode, status: int) {
    || code == OperationTimedOut || code == CouldntConnect || code == CouldntResolveHost
    || 500 <= status < 600 || status == TOO_MANY_REQUESTS
  }

  // ---------- What one attempt comes to ----------

  /** What one callback adds to the body. */
  function Delivered(event: Event): seq<Byte> {
    if event.Chunk? && !event.stop then event.bytes else []
  }

  /** The chunks that arrive before the stop token fires, joined. */
  function BodyOf(events: seq<Event>): seq<Byte> {
    if events == [] || events[0].stop then [] else Delivered(events[0]) + BodyOf(events[1..])
  }

  /** All bytes of the chunks, in order. */
  function Joined(events: seq<Event>): seq<Byte> {
    if events == [] then []
    else (if events[0].Chunk? then events[0].bytes else []) + Joined(events[1..])
  }

  /** Nothing before event n finds the token fired, and n does or is the end. */
  predicate StopsAt(events: seq<Event>, n: nat) {
    n <= |events| && (forall k | 0 <= k < n :: !events[k].stop) && (n < |events| ==> events[n].stop)
  }

  /** The body is the chunks that come before the first callback that finds the token fired. */
  lemma {:induction false} BodyExactly(events: seq<Event>, n: nat)
    requires StopsAt(events, n)
    ensures BodyOf(events) == Joined(events[..n])
    decreases n
  {
    if n > 0 {
      assert forall k | 0 <= k < n - 1 :: events[1..][k] == events[k + 1];
      BodyExactly(events[1..], n - 1);
      assert events[..n][1..] == events[1..][..n - 1];
    }
  }

  lemma BodyOfNext(body: seq<Byte>, events: seq<Event>, k: nat)
    requires k < |events|
    ensures body + BodyOf(events[k..]) ==
            body + Delivered(events[k]) + if events[k].stop then [] else BodyOf(events[k + 1..])
  {
    assert events[k..][1..] == events[k + 1..];
  }

  predicate Interrupted(events: seq<Event>) {
    exists k | 0 <= k < |events| :: events[k].stop
  }

  /** A transfer that did not complete has no status. */
  function StatusOf(t: Transfer): int {
    if t.code == CurlOk then Narrow(t.status) else UNKNOWN
  }

  predicate Succeeds(t: Transfer) {
    t.code == CurlOk && IsSuccess(StatusOf(t))
  }

  predicate Aborts(t: Transfer) {
    t.code == AbortedByCallback || Interrupted(t.events) || t.stop
  }

  /** The attempt fails, is not aborted, and the failure may pass. */
  predicate Retryable(t: Transfer) {
    !Succeeds(t) && !Aborts(t) && IsTransientError(t.code, StatusOf(t))
  }

  /** A success is a completed transfer with a status from 200 to 299. */
  lemma SuccessExactlyWhen(t: Transfer)
    requires -0x8000 <= t.status < 0x8000
    ensures Succeeds(t) <==> t.code == CurlOk && 200 <= t.status <= 299
    ensures StatusOf(t) == if t.code == CurlOk then t.status else -1
  {
  }

  /**
    A retry follows a transfer that the caller let go on and that timed out, found no host or no
    connection, or completed with status 429 or 500 to 599; and no other.
   */
  lemma RetryableExactlyWhen(t: Transfer)
    requires -0x8000 <= t.status < 0x8000
    ensures Retryable(t) <==>
      && (forall k | 0 <= k < |t.events| :: !t.events[k].stop) && !t.stop
      && (t.code in {OperationTimedOut, CouldntConnect, CouldntResolveHost}
          || (t.code == CurlOk && (t.status == 429 || 500 <= t.status <= 599)))
  {
  }

  // ---------- What a download comes to ----------

  /** How many of the attempts from k on, at most bound, are retryable before one that is not. */
  function LeadingRetryable(transfers: nat -> Transfer, k: nat, bound: nat): (n: nat)
    ensures n <= bound
    decreases bound
  {
    if bound == 0 || !Retryable(transfers(k)) then 0 else 1 + LeadingRetryable(transfers, k + 1, bound - 1)
  }

  function Attempts(transfers: nat -> Transfer, maxRetries: nat): nat {
    1 + LeadingRetryable(transfers, 0, maxRetries)
  }

  /** The first n attempts can all be retried. */
  ghost predicate AllRetryable(transfers: nat -> Transfer, n: nat) {
    forall j | 0 <= j < n :: Retryable(transfers(j))
  }

  lemma {:induction false} LeadingExactly(transfers: nat -> Transfer, k: nat, bound: nat)
    ensures
      var n := LeadingRetryable(transfers, k, bound);
      && (forall j | k <= j < k + n :: Retryable(transfers(j)))
      && (n == bound || !Retryable(transfers(k + n)))
    decreases bound
  {
    if bound > 0 && Retryable(transfers(k)) {
      LeadingExactly(transfers, k + 1, bound - 1);
    }
  }

  /**
    There are n attempts exactly when all but the last could be retried, and the last either could
    not be or used up the retries.
   */
  lemma AttemptsExactly(transfers: nat -> Transfer, maxRetries: nat, n: nat)
    ensures n == Attempts(transfers, maxRetries) <==>
              && 1 <= n <= maxRetries + 1
              && AllRetryable(transfers, n - 1)
              && (n == maxRetries + 1 || !Retryable(transfers(n - 1)))
  {
    LeadingExactly(transfers, 0, maxRetries);
  }

  /** The attempt whose outcome the caller gets. */
  function LastTransfer(transfers: nat -> Transfer, maxRetries: nat): Transfer {
    transfers(Attempts(transfers, maxRetries) - 1)
  }

  /** The download succeeds exactly when some attempt within the limit does and all before it are retryable. */
  lemma SucceedsExactlyWhen(transfers: nat -> Transfer, maxRetries: nat)
    ensures Succeeds(LastTransfer(transfers, maxRetries)) <==>
              exists k | 0 <= k <= maxRetries :: Succeeds(transfers(k)) && AllRetryable(transfers, k)
  {
    var n := Attempts(transfers, maxRetries);
    AttemptsExactly(transfers, maxRetries, n);
    if k: nat :| k <= maxRetries && Succeeds(transfers(k)) && AllRetryable(transfers, k) {
      AttemptsExactly(transfers, maxRetries, k + 1);
      assert n == k + 1;
    }
  }

  /** No attempt follows one that the caller aborted. */
  lemma AbortIsLast(transfers: nat -> Transfer, maxRetries: nat, k: nat)
    requires k < Attempts(transfers, maxRetries) && Aborts(transfers(k))
    ensures k == Attempts(transfers, maxRetries) - 1
  {
    AttemptsExactly(transfers, maxRetries, Attempts(transfers, maxRetries));
  }

  // ---------- Delays ----------

  function Min(a: nat, b: nat): nat {
    if a < b then a else b
  }

  /** The delay before the next attempt, once one delay has been used. */
  function Advanced(policy: RetryPolicy, delay: nat): nat {
    if policy.strategy == Exponential then Min(delay * 2, policy.maxDelay) else delay
  }

  /** The upper end of the k-th sleep. */
  function DelayAt(policy: RetryPolicy, k: nat): nat {
    if k == 0 then policy.initialDelay else Advanced(policy, DelayAt(policy, k - 1))
  }

  function Doubled(delay: nat, k: nat): nat {
    delay * TwoTo(k)
  }

  lemma DoubledOnce(delay: nat, k: nat)
    ensures Doubled(delay, k + 1) == 2 * Doubled(delay, k)
  {
    assert TwoTo(k + 1) == 2 * TwoTo(k);
    assert delay * (2 * TwoTo(k)) == 2 * (delay * TwoTo(k));
  }

  /** Exponential delays double from the first on, up to the ceiling. */
  lemma {:induction false} ExponentialDelay(policy: RetryPolicy, k: nat)
    requires policy.strategy == Exponential && k >= 1
    ensures DelayAt(policy, k) == Min(policy.initialDelay * TwoTo(k), policy.maxDelay)
  {
    DoubledOnce(policy.initialDelay, k - 1);
    if k > 1 {
      ExponentialDelay(policy, k - 1);
    } else {
      assert TwoTo(0) == 1 && DelayAt(policy, 0) == policy.initialDelay;
    }
  }

  /** Any other delay stays as it is. */
  lemma {:induction false} SteadyDelay(policy: RetryPolicy, k: nat)
    requires policy.strategy != Exponential
    ensures DelayAt(policy, k) == policy.initialDelay
  {
    if k > 0 {
      SteadyDelay(policy, k - 1);
    }
  }

  /**
    Under the exponential strategy every delay respects the ceiling exactly when the first one
    does: the first is used as configured.
   */
  lemma CeilingKeptExactlyWhen(policy: RetryPolicy)
    requires policy.strategy == Exponential
    ensures (forall k: nat :: DelayAt(policy, k) <= policy.maxDelay) <==> policy.initialDelay <= policy.maxDelay
  {
    if policy.initialDelay <= policy.maxDelay {
      forall k: nat ensures DelayAt(policy, k) <= policy.maxDelay {
        if k >= 1 {
          ExponentialDelay(policy, k);
        }
      }
    } else {
      assert DelayAt(policy, 0) > policy.maxDelay;
    }
  }

  function Sum(s: seq<nat>): nat {
    if s == [] then 0 else Sum(s[..|s| - 1]) + s[|s| - 1]
  }

  /** The first n delays added up. */
  function TotalDelay(policy: RetryPolicy, n: nat): nat {
    if n == 0 then 0 else TotalDelay(policy, n - 1) + DelayAt(policy, n - 1)
  }

  /** The sleeps of a download: one between each two attempts, none longer than its delay. */
  ghost predicate SleepsWithin(policy: RetryPolicy, sleeps: seq<nat>) {
    forall k | 0 <= k < |sleeps| :: sleeps[k] <= DelayAt(policy, k)
  }

  lemma {:induction false} SleepsAddUp(policy: RetryPolicy, sleeps: seq<nat>)
    requires SleepsWithin(policy, sleeps)
    ensures Sum(sleeps) <= TotalDelay(policy, |sleeps|)
    decreases |sleeps|
  {
    if sleeps != [] {
      var rest := sleeps[..|sleeps| - 1];
      assert forall k | 0 <= k < |rest| :: rest[k] == sleeps[k];
      SleepsAddUp(policy, rest);
    }
  }

  /** The most a delay after the first can be. */
  function Ceiling(policy: RetryPolicy): nat {
    if policy.strategy == Exponential then policy.maxDelay else policy.initialDelay
  }

  /** The initial delay, then at most the ceiling each time; exactly the initial delay if fixed. */
  lemma {:induction false} TotalDelayBound(policy: RetryPolicy, n: nat)
    requires n >= 1
    ensures TotalDelay(policy, n) <= policy.initialDelay + (n - 1) * Ceiling(policy)
    ensures policy.strategy != Exponential ==> TotalDelay(policy, n) == n * policy.initialDelay
  {
    if n == 1 {
      assert TotalDelay(policy, 0) == 0;
    } else {
      TotalDelayBound(policy, n - 1);
      if policy.strategy == Exponential {
        ExponentialDelay(policy, n - 1);
      } else {
        SteadyDelay(policy, n - 1);
      }
      OneMoreTime(n - 1, policy.initialDelay);
      OneMoreTime(n - 2, Ceiling(policy));
    }
  }

  lemma OneMoreTime(n: nat, delay: nat)
    ensures (n + 1) * delay == n * delay + delay
  {
  }

  // ---------- The response and the callbacks ----------

  class HttpResponse {
    var status: int
    var body: seq<Byte>
    var metrics: Metrics

    constructor (status: int)
      ensures this.status == status && body == [] && metrics == NO_METRICS
    {
      this.status := status;
      this.body := [];
      this.metrics := NO_METRICS;
    }

    method AppendToBody(bytes: seq<Byte>)
      modifies this`body
      ensures body == old(body) + bytes
    {
      if bytes == [] {
        return;
      }
      body := body + bytes;
    }

    method Clear()
      modifies this
      ensures body == [] && status == UNKNOWN && metrics == NO_METRICS
    {
      body := [];
      status := UNKNOWN;
      metrics := NO_METRICS;
    }
  }

  class TransferContext {
    const response: HttpResponse
    var abortedByUser: bool

    constructor (response: HttpResponse)
      ensures this.response == response && !abortedByUser
    {
      this.response := response;
      this.abortedByUser := false;
    }

    /** Whether the stop token has fired; if so, the transfer is marked as aborted for good. */
    method ConsumeAbortRequest(stop: bool) returns (fired: bool)
      modifies this`abortedByUser
      ensures fired == stop && abortedByUser == (old(abortedByUser) || stop)
    {
      if stop {
        abortedByUser := true;
        return true;
      }
      fired := false;
    }

    /** Takes a chunk, or refuses it and so aborts the transfer. */
    method WriteBodyChunk(bytes: seq<Byte>, stop: bool) returns (taken: bool)
      modifies this`abortedByUser, response`body
      ensures taken == !stop && abortedByUser == (old(abortedByUser) || stop)
      ensures response.body == old(response.body) + if stop then [] else bytes
    {
      var fired := ConsumeAbortRequest(stop);
      if fired {
        return false;
      }
      response.AppendToBody(bytes);
      taken := true;
    }

    /** Runs one callback; false if it aborts the transfer. */
    method RunCallback(event: Event) returns (goOn: bool)
      modifies this`abortedByUser, response`body
      ensures goOn == !event.stop && abortedByUser == (old(abortedByUser) || event.stop)
      ensures response.body == old(response.body) + Delivered(event)
    {
      match event {
        case Chunk(bytes, stop) =>
          goOn := WriteBodyChunk(bytes, stop);
        case Progress(stop) =>
          var fired := ConsumeAbortRequest(stop);
          goOn := !fired;
      }
    }

    /** Runs the callbacks of a transfer, up to the first that aborts it. */
    method Perform(events: seq<Event>)
      modifies this`abortedByUser, response`body
      ensures response.body == old(response.body) + BodyOf(events)
      ensures abortedByUser == (old(abortedByUser) || Interrupted(events))
    {
      var k := 0;
      assert events[0..] == events;
      while k < |events|
        invariant k <= |events| && forall j | 0 <= j < k :: !events[j].stop
        invariant response.body + BodyOf(events[k..]) == old(response.body) + BodyOf(events)
        invariant abortedByUser == old(abortedByUser)
      {
        BodyOfNext(response.body, events, k);
        var goOn := RunCallback(events[k]);
        if !goOn {
          return;
        }
        k := k + 1;
      }
    }
  }

  // ---------- The client ----------

  /** After n failed attempts: the sleeps so far, and the delay for the next one. */
  ghost predicate Slept(policy: RetryPolicy, n: nat, sleeps: seq<nat>, delay: nat) {
    && SleepsWithin(policy, sleeps)
    && if policy.strategy == NoBackoff then sleeps == [] else |sleeps| == n && delay == DelayAt(policy, n)
  }

  lemma SleptOnceMore(policy: RetryPolicy, n: nat, sleeps: seq<nat>, delay: nat, slept: seq<nat>, next: nat)
    requires Slept(policy, n, sleeps, delay)
    requires if policy.strategy == NoBackoff then slept == [] && next == delay
             else |slept| == 1 && slept[0] <= delay && next == Advanced(policy, delay)
    ensures Slept(policy, n + 1, sleeps + slept, next)
  {
  }

  /** What holds when attempt number k, counted from 0, ends the download. */
  lemma DownloadEnds(policy: RetryPolicy, transfers: nat -> Transfer, k: nat, sleeps: seq<nat>, delay: nat)
    requires k <= policy.maxRetries as int && AllRetryable(transfers, k) && Slept(policy, k, sleeps, delay)
    requires !Retryable(transfers(k)) || k == policy.maxRetries as int
    ensures Attempts(transfers, policy.maxRetries as int) == k + 1
    ensures LastTransfer(transfers, policy.maxRetries as int) == transfers(k)
    ensures SleepsWithin(policy, sleeps) && |sleeps| == if policy.strategy == NoBackoff then 0 else k
    ensures Sum(sleeps) <= TotalDelay(policy, |sleeps|)
  {
    AttemptsExactly(transfers, policy.maxRetries as int, k + 1);
    SleepsAddUp(policy, sleeps);
  }

  predicate ShouldStopRetrying(aborted: bool, transient: bool, attempt: UInt32, retries: UInt32) {
    aborted || !transient || attempt == retries
  }

  /** Sleeps up to the current delay (any part of it: draw is the random choice) and advances it. */
  method ApplyBackoffDelay(policy: RetryPolicy, delay: nat, draw: nat) returns (sleeps: seq<nat>, next: nat)
    ensures if policy.strategy == NoBackoff then sleeps == [] && next == delay
            else |sleeps| == 1 && sleeps[0] <= delay && next == Advanced(policy, delay)
  {
    if policy.strategy == NoBackoff {
      return [], delay;
    }
    sleeps := [draw % (delay + 1)];
    next := delay;
    if policy.strategy == Exponential {
      next := Min(delay * 2, policy.maxDelay);
    }
  }

  /** One attempt: the response is cleared and filled again; reports whether it ends the download. */
  method Attempt(response: HttpResponse, ctx: TransferContext, t: Transfer, attempt: UInt32, retries: UInt32)
      returns (done: bool)
    requires ctx.response == response && !ctx.abortedByUser
    modifies response, ctx`abortedByUser
    ensures response.body == BodyOf(t.events) && response.status == StatusOf(t)
    ensures response.metrics == Metrics(t.ttfb, t.duration, |BodyOf(t.events)|)
    ensures done <==> !Retryable(t) || attempt == retries
    ensures !done ==> !ctx.abortedByUser
  {
    response.Clear();
    ctx.Perform(t.events);
    response.metrics := Metrics(t.ttfb, t.duration, |response.body|);
    response.status := if t.code == CurlOk then Narrow(t.status) else UNKNOWN;
    if t.code == CurlOk && IsSuccess(response.status) {
      return true;
    }
    var aborted := t.code == AbortedByCallback || ctx.abortedByUser || t.stop;
    var transient := IsTransientError(t.code, response.status);
    done := ShouldStopRetrying(aborted, transient, attempt, retries);
  }

  /**
    Attempts until one succeeds, cannot be retried or is the last allowed. The attempt counter is a
    32-bit number that never wraps, whatever the number of retries.
   */
  method Download(policy: RetryPolicy, transfers: nat -> Transfer, draws: nat -> nat)
      returns (response: HttpResponse, attempts: nat, sleeps: seq<nat>)
    ensures fresh(response)
    ensures attempts == Attempts(transfers, policy.maxRetries as int)
    ensures
      var last := LastTransfer(transfers, policy.maxRetries as int);
      && response.body == BodyOf(last.events) && response.status == StatusOf(last)
      && response.metrics == Metrics(last.ttfb, last.duration, |response.body|)
    ensures SleepsWithin(policy, sleeps) && |sleeps| == if policy.strategy == NoBackoff then 0 else attempts - 1
    ensures Sum(sleeps) <= TotalDelay(policy, |sleeps|)
  {
    response := new HttpResponse(UNKNOWN);
    var ctx := new TransferContext(response);
    var delay := policy.initialDelay;
    var attempt: UInt32 := 0;
    sleeps := [];
    while attempt <= policy.maxRetries
      invariant attempt <= policy.maxRetries && !ctx.abortedByUser
      invariant fresh(response) && fresh(ctx) && ctx.response == response
      invariant AllRetryable(transfers, attempt as int)
      invariant Slept(policy, attempt as int, sleeps, delay)
      decreases policy.maxRetries - attempt
    {
      var done := Attempt(response, ctx, transfers(attempt as int), attempt, policy.maxRetries);
      if done {
        attempts := attempt as int + 1;
        DownloadEnds(policy, transfers, attempt as int, sleeps, delay);
        return;
      }
      var slept, next := ApplyBackoffDelay(policy, delay, draws(attempt as int));
      SleptOnceMore(policy, attempt as int, sleeps, delay, slept, next);
      sleeps, delay := sleeps + slept, next;
      attempt := attempt + 1;
    }
    assert false;
  }
}
