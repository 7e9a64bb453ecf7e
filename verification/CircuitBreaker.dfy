/**
 A circuit breaker: consecutive failures open it, a cooldown later it lets requests
 try again, a success closes it.  Time is whatever the clock says at each call.
 */
module CircuitBreaker {
  const DEFAULT_THRESHOLD := 5
  const DEFAULT_COOLDOWN := 30_000   // milliseconds

  datatype Status = Closed | Open | HalfOpen

  /** A breaker's state as a value: consecutive failures and when the last one was. */
  datatype Circuit = Circuit(status: Status, failures: nat, lastFailure: int)

  const CLOSED := Circuit(Closed, 0, 0)

  function Allowed(c: Circuit, cooldown: int, now: int): (ok: bool) {
    c.status != Open || now - c.lastFailure > cooldown
  }

  function AfterAllow(c: Circuit, cooldown: int, now: int): (r: Circuit) {
    if c.status == Open && Allowed(c, cooldown, now) then c.(status := HalfOpen) else c
  }

  function AfterFailure(c: Circuit, threshold: nat, now: int): (r: Circuit) {
    var failures := c.failures + 1;
    Circuit(if c.status == HalfOpen || failures >= threshold then Open else c.status, failures, now)
  }

  /** Closed exactly while consecutive failures stay below the threshold. */
  predicate Consistent(c: Circuit, threshold: nat) { c.status == Closed <==> c.failures < threshold }

  /** A call on a breaker. */
  datatype Call = Allow(now: int) | Success | Failure(now: int)

  function After(c: Circuit, threshold: nat, cooldown: int, call: Call): (r: Circuit) {
    match call
    case Allow(now) => AfterAllow(c, cooldown, now)
    case Success => CLOSED.(lastFailure := c.lastFailure)
    case Failure(now) => AfterFailure(c, threshold, now)
  }

  function AfterAll(threshold: nat, cooldown: int, calls: seq<Call>): (r: Circuit) {
    if calls == [] then CLOSED else After(AfterAll(threshold, cooldown, calls[..|calls| - 1]), threshold, cooldown, calls[|calls| - 1])
  }

  /** The failures since the last success. */
  function Streak(calls: seq<Call>): (n: nat) {
    if calls == [] then 0
    else match calls[|calls| - 1]
      case Success => 0
      case Failure(_) => Streak(calls[..|calls| - 1]) + 1
      case Allow(_) => Streak(calls[..|calls| - 1])
  }

  /** Over any history a breaker is closed exactly when fewer failures than the
      threshold followed the last success. */
  lemma {:induction false} ClosedByStreak(threshold: nat, cooldown: int, calls: seq<Call>)
    requires threshold > 0
    ensures AfterAll(threshold, cooldown, calls).failures == Streak(calls)
    ensures AfterAll(threshold, cooldown, calls).status == Closed <==> Streak(calls) < threshold
    decreases |calls|
  {
    if calls != [] { ClosedByStreak(threshold, cooldown, calls[..|calls| - 1]); }
  }

  /** How many of the requests asked at these times are let through when no result
      comes in between. */
  function Admitted(c: Circuit, cooldown: int, asked: seq<int>): (n: nat)
    decreases |asked|
  {
    if asked == [] then 0
    else (if Allowed(c, cooldown, asked[0]) then 1 else 0) + Admitted(AfterAllow(c, cooldown, asked[0]), cooldown, asked[1..])
  }

  /** How many are asked before one finds the cooldown over. */
  function Early(c: Circuit, cooldown: int, asked: seq<int>): (n: nat)
    ensures n <= |asked|
  {
    if asked == [] || asked[0] - c.lastFailure > cooldown then 0 else 1 + Early(c, cooldown, asked[1..])
  }

  lemma {:induction false} NotOpenAdmitsAll(c: Circuit, cooldown: int, asked: seq<int>)
    requires c.status != Open
    ensures Admitted(c, cooldown, asked) == |asked|
    decreases |asked|
  {
    if asked != [] { NotOpenAdmitsAll(c, cooldown, asked[1..]); }
  }

  /** An open breaker lets a single trial through if and only if at most one request is
      asked from the end of the cooldown on: half-open admits every one of them. */
  lemma {:induction false} TrialsAdmitted(c: Circuit, cooldown: int, asked: seq<int>)
    requires c.status == Open
    ensures Admitted(c, cooldown, asked) == |asked| - Early(c, cooldown, asked)
    ensures Admitted(c, cooldown, asked) <= 1 <==> |asked| - Early(c, cooldown, asked) <= 1
    decreases |asked|
  {
    if asked != [] {
      if Allowed(c, cooldown, asked[0]) {
        NotOpenAdmitsAll(AfterAllow(c, cooldown, asked[0]), cooldown, asked[1..]);
      } else {
        TrialsAdmitted(c, cooldown, asked[1..]);
      }
    }
  }

  /** Two requests after the cooldown are two trials. */
  lemma {:induction false} TwoTrials(c: Circuit, cooldown: int, now: int)
    requires c.status == Open && now - c.lastFailure > cooldown
    ensures Admitted(c, cooldown, [now, now]) == 2
  {
    TrialsAdmitted(c, cooldown, [now, now]);
  }

  /** A failure leaves the breaker open exactly when it is the threshold-th in a row or
      later, a failed trial included; then nothing is admitted until a whole cooldown has
      passed since that failure, and everything may be from then on. */
  lemma {:induction false} OpenBlocks(c: Circuit, threshold: nat, cooldown: int, failedAt: int, now: int)
    requires Consistent(c, threshold)
    ensures AfterFailure(c, threshold, failedAt).status == Open <==> c.failures + 1 >= threshold
    ensures c.failures + 1 >= threshold ==> (Allowed(AfterFailure(c, threshold, failedAt), cooldown, now) <==> now > failedAt + cooldown)
    ensures c.failures + 1 < threshold ==> Allowed(AfterFailure(c, threshold, failedAt), cooldown, now)
  {
  }

  class Breaker {
    var status: Status
    var failures: nat
    var lastFailure: int
    const threshold: nat
    const cooldown: int

    function Value(): (c: Circuit)
      reads this
    {
      Circuit(status, failures, lastFailure)
    }

    ghost predicate Valid()
      reads this
    {
      threshold > 0 && cooldown > 0 && Consistent(Value(), threshold)
    }

    constructor (threshold: int, cooldown: int)
      ensures Valid() && Value() == CLOSED
      ensures this.threshold == (if threshold <= 0 then DEFAULT_THRESHOLD else threshold)
      ensures this.cooldown == (if cooldown <= 0 then DEFAULT_COOLDOWN else cooldown)
    {
      this.threshold := if threshold <= 0 then DEFAULT_THRESHOLD else threshold;
      this.cooldown := if cooldown <= 0 then DEFAULT_COOLDOWN else cooldown;
      status, failures, lastFailure := Closed, 0, 0;
    }

    /** Whether a request may be attempted. */
    method Allow(now: int) returns (ok: bool)
      requires Valid()
      modifies this`status
      ensures Valid() && ok == Allowed(old(Value()), cooldown, now) && Value() == AfterAllow(old(Value()), cooldown, now)
    {
      if status == Open {
        if now - lastFailure > cooldown {
          status := HalfOpen;
          return true;
        }
        return false;
      }
      ok := true;
    }

    method RecordSuccess()
      requires Valid()
      modifies this`status, this`failures
      ensures Valid() && Value() == After(old(Value()), threshold, cooldown, Success)
    {
      failures := 0;
      status := Closed;
    }

    method RecordFailure(now: int)
      requires Valid()
      modifies this
      ensures Valid() && Value() == AfterFailure(old(Value()), threshold, now)
    {
      failures := failures + 1;
      lastFailure := now;
      if status == HalfOpen {
        status := Open;
        return;
      }
      if failures >= threshold { status := Open; }
    }
  }
}
