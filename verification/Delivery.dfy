/**
 Delivering one event: retries for transient errors, behind a breaker per host.
 */
module Delivery {
  import opened CircuitBreaker

  /** The outcome of one attempt. */
  datatype Attempt = Ok | ClientError | Transient

  datatype Result = Sent | Rejected | GaveUp | Cancelled | CircuitOpen

  /** What retrying comes to from attempt k on: send says how each attempt ends,
      cancelled whether the context ends during the wait before it. */
  function Retried(send: nat -> Attempt, cancelled: nat -> bool, max: nat, k: nat): (r: (Result, nat))
    requires k <= max
    ensures k <= r.1 <= max + 1 && (r.0 == Cancelled || k < r.1) && r.0 != CircuitOpen
    decreases max - k
  {
    if k > 0 && cancelled(k) then (Cancelled, k)
    else match send(k)
      case Ok => (Sent, k + 1)
      case ClientError => (Rejected, k + 1)
      case Transient => if k == max then (GaveUp, k + 1) else Retried(send, cancelled, max, k + 1)
  }

  /** No attempt before n is decisive or cancelled. */
  ghost predicate AllTransient(send: nat -> Attempt, cancelled: nat -> bool, n: nat) {
    forall j: nat :: j < n ==> send(j) == Transient && (j > 0 ==> !cancelled(j))
  }

  /** The event is sent exactly when some attempt succeeds and all before it were
      transient failures; likewise for the other outcomes. */
  lemma {:induction false} RetriedMeans(send: nat -> Attempt, cancelled: nat -> bool, max: nat, k: nat)
    requires k <= max && AllTransient(send, cancelled, k)
    ensures var (r, n) := Retried(send, cancelled, max, k);
      match r
      case Sent => n > 0 && AllTransient(send, cancelled, n - 1) && (n > 1 ==> !cancelled(n - 1)) && send(n - 1) == Ok
      case Rejected => n > 0 && AllTransient(send, cancelled, n - 1) && (n > 1 ==> !cancelled(n - 1)) && send(n - 1) == ClientError
      case GaveUp => n == max + 1 && AllTransient(send, cancelled, n)
      case Cancelled => n > 0 && AllTransient(send, cancelled, n) && cancelled(n)
      case CircuitOpen => true
    decreases max - k
  {
    if !(k > 0 && cancelled(k)) && send(k) == Transient && k < max { RetriedMeans(send, cancelled, max, k + 1); }
  }

  /** Attempts until one is decisive; sends says how often it was attempted, retries how
      often it was announced. */
  method WithRetry(send: nat -> Attempt, cancelled: nat -> bool, maxRetries: nat) returns (r: Result, sends: nat, retries: nat)
    ensures (r, sends) == Retried(send, cancelled, maxRetries, 0)
    ensures retries == (if r == Cancelled then sends else sends - 1)
  {
    retries := 0;
    r, sends := GaveUp, 0;
    for attempt := 0 to maxRetries + 1
      invariant sends == attempt && retries == (if attempt == 0 then 0 else attempt - 1) && r == GaveUp
      invariant attempt <= maxRetries ==> Retried(send, cancelled, maxRetries, 0) == Retried(send, cancelled, maxRetries, attempt)
      invariant attempt > maxRetries ==> Retried(send, cancelled, maxRetries, 0) == (GaveUp, attempt)
    {
      if attempt > 0 {
        retries := retries + 1;
        if cancelled(attempt) { return Cancelled, sends, retries; }
      }
      var last := send(attempt);
      sends := sends + 1;
      if last == Ok { return Sent, sends, retries; }
      if last == ClientError { return Rejected, sends, retries; }
    }
  }

  /** Calls next only when the breaker allows it, and records how it went. */
  method WithCircuitBreaker(breaker: Breaker, now: int, later: int, send: nat -> Attempt, cancelled: nat -> bool, maxRetries: nat)
    returns (r: Result)
    requires breaker.Valid()
    modifies breaker
    ensures breaker.Valid()
    ensures r == CircuitOpen <==> !Allowed(old(breaker.Value()), breaker.cooldown, now)
    ensures r == CircuitOpen ==> breaker.Value() == old(breaker.Value())
    ensures r != CircuitOpen ==> r == Retried(send, cancelled, maxRetries, 0).0
    ensures r == Sent ==> breaker.status == Closed && breaker.failures == 0
    ensures r != CircuitOpen && r != Sent ==>
      breaker.Value() == AfterFailure(AfterAllow(old(breaker.Value()), breaker.cooldown, now), breaker.threshold, later)
  {
    var ok := breaker.Allow(now);
    if !ok { return CircuitOpen; }
    var sends, retries;
    r, sends, retries := WithRetry(send, cancelled, maxRetries);
    if r != Sent {
      breaker.RecordFailure(later);
    } else {
      breaker.RecordSuccess();
    }
  }
}
