/**
 The in-memory event dispatcher: callers, workers, delayed requeues and shutdown
 interleave freely around one bounded queue.  Every accepted event is accounted for
 in exactly one place.
 */
module Dispatcher {
  import opened CircuitBreaker

  const MAX_REQUEUES := 10
  const THRESHOLD := 5

  type Event = nat
  type Host = nat

  /** Where events are, and what became of those that are done. */
  datatype Flow = Flow(
    queue: seq<Event>,
    busy: multiset<Event>,         // taken by a worker, breaker not asked yet
    sending: multiset<Event>,      // let through by the breaker
    waiting: multiset<Event>,      // sitting out a cooldown
    delivered: multiset<Event>,
    failed: multiset<Event>,
    dropped: multiset<Event>,      // lost after they were accepted
    abandoned: multiset<Event>)    // waiting when the dispatcher shut down
  {
    /** How many times an event is here. */
    function Count(e: Event): (n: nat) {
      multiset(queue)[e] + busy[e] + sending[e] + waiting[e] + delivered[e] + failed[e] + dropped[e] + abandoned[e]
    }
  }

  /** How often each accepted event was requeued and entered the delivery chain. */
  datatype Tally = Tally(requeues: map<Event, nat>, entries: map<Event, nat>) {
    function RequeuesOf(e: Event): (n: nat) { if e in requeues then requeues[e] else 0 }

    function EntriesOf(e: Event): (n: nat) { if e in entries then entries[e] else 0 }
  }

  /** The counters the dispatcher reports, and the calls it turned away. */
  datatype Counters = Counters(queued: nat, delivered: nat, failed: nat, dropped: nat, rejected: nat)

  datatype Setup = Setup(capacity: nat, cooldown: int, host: map<Event, Host>)

  datatype State = State(
    closed: bool,
    alive: nat,                    // workers that have not exited
    calling: set<Event>,           // dispatch calls that found the dispatcher open
    accepted: set<Event>,
    flow: Flow,
    tally: Tally,
    counters: Counters,
    breakers: map<Host, Circuit>)

  const EMPTY := Flow([], multiset{}, multiset{}, multiset{}, multiset{}, multiset{}, multiset{}, multiset{})

  function Start(workers: nat): (s: State) {
    State(false, workers, {}, {}, EMPTY, Tally(map[], map[]), Counters(0, 0, 0, 0, 0), map[])
  }

  // ---- what a step does to the flow ---------------------------------------------------------------

  datatype Step =
    | Call(e: Event)              // a caller finds the dispatcher open
    | Enqueue(e: Event)           // and sends, or finds the queue full
    | Take(e: Event)              // a worker receives the oldest event
    | Admit(e: Event, now: int)   // the chain asks the breaker
    | Succeed(e: Event)
    | Fail(e: Event, now: int)
    | Fire(e: Event)              // a cooldown is over, and there is room or no shutdown
    | GiveUp(e: Event)            // a requeue sees the shutdown
    | Close
    | Exit                        // a worker leaves once closed and drained

  predicate Full(x: Setup, f: Flow) { |f.queue| >= x.capacity }

  function Taken(f: Flow): (r: Flow)
    requires f.queue != []
  {
    f.(queue := f.queue[1..], busy := f.busy + multiset{f.queue[0]})
  }

  /** The breaker answered: on to sending, to waiting, or, after too many requeues, out. */
  function Admitted(f: Flow, e: Event, allowed: bool, requeues: nat): (r: Flow) {
    var left := f.(busy := f.busy - multiset{e});
    if allowed then left.(sending := f.sending + multiset{e})
    else if requeues >= MAX_REQUEUES then left.(dropped := f.dropped + multiset{e})
    else left.(waiting := f.waiting + multiset{e})
  }

  function Settled(f: Flow, e: Event, ok: bool): (r: Flow) {
    var left := f.(sending := f.sending - multiset{e});
    if ok then left.(delivered := f.delivered + multiset{e}) else left.(failed := f.failed + multiset{e})
  }

  /** A cooldown is over: back into the queue, or lost when it is full. */
  function Fired(x: Setup, f: Flow, e: Event): (r: Flow) {
    var left := f.(waiting := f.waiting - multiset{e});
    if Full(x, f) then left.(dropped := f.dropped + multiset{e}) else left.(queue := f.queue + [e])
  }

  function BreakerOf(x: Setup, s: State, e: Event): (c: Circuit)
    requires e in x.host
  {
    if x.host[e] in s.breakers then s.breakers[x.host[e]] else CLOSED
  }

  // ---- steps -----------------------------------------------------------------------------------------

  /** Whether a step can be taken. */
  ghost predicate Enabled(x: Setup, s: State, step: Step) {
    match step
    case Call(e) => !s.closed && e in x.host && e !in s.accepted && e !in s.calling
    case Enqueue(e) => e in s.calling
    case Take(e) => s.flow.queue != [] && s.flow.queue[0] == e && |s.flow.busy| + |s.flow.sending| < s.alive
    case Admit(e, _) => e in s.flow.busy && e in x.host
    case Succeed(e) => e in s.flow.sending && e in x.host
    case Fail(e, _) => e in s.flow.sending && e in x.host
    case Fire(e) => e in s.flow.waiting && !(s.closed && Full(x, s.flow))
    case GiveUp(e) => e in s.flow.waiting && s.closed
    case Close => !s.closed
    case Exit => s.closed && s.flow.queue == [] && |s.flow.busy| + |s.flow.sending| < s.alive
  }

  /** A refused event is requeued once more, unless that was done often enough. */
  function AdmittedTo(y: Tally, e: Event, allowed: bool): (r: Tally) {
    if allowed || y.RequeuesOf(e) >= MAX_REQUEUES then y else y.(requeues := y.requeues[e := y.RequeuesOf(e) + 1])
  }

  /** The breaker lets the event through. */
  ghost predicate LetThrough(x: Setup, s: State, e: Event, now: int) {
    e in x.host && Allowed(BreakerOf(x, s, e), x.cooldown, now)
  }

  ghost function FlowAfter(x: Setup, s: State, step: Step): (f: Flow)
    requires Enabled(x, s, step)
  {
    match step
    case Enqueue(e) => if Full(x, s.flow) then s.flow else s.flow.(queue := s.flow.queue + [e])
    case Take(_) => Taken(s.flow)
    case Admit(e, now) => Admitted(s.flow, e, LetThrough(x, s, e, now), s.tally.RequeuesOf(e))
    case Succeed(e) => Settled(s.flow, e, true)
    case Fail(e, _) => Settled(s.flow, e, false)
    case Fire(e) => Fired(x, s.flow, e)
    case GiveUp(e) => s.flow.(waiting := s.flow.waiting - multiset{e}, abandoned := s.flow.abandoned + multiset{e})
    case _ => s.flow
  }

  ghost function AcceptedAfter(x: Setup, s: State, step: Step): (r: set<Event>) {
    if step.Enqueue? && !Full(x, s.flow) then s.accepted + {step.e} else s.accepted
  }

  ghost function CallingAfter(s: State, step: Step): (r: set<Event>) {
    match step case Call(e) => s.calling + {e} case Enqueue(e) => s.calling - {e} case _ => s.calling
  }

  ghost function TallyAfter(x: Setup, s: State, step: Step): (r: Tally) {
    match step
    case Enqueue(e) => if Full(x, s.flow) then s.tally else Tally(s.tally.requeues[e := 0], s.tally.entries[e := 0])
    case Take(e) => s.tally.(entries := s.tally.entries[e := s.tally.EntriesOf(e) + 1])
    case Admit(e, now) => AdmittedTo(s.tally, e, LetThrough(x, s, e, now))
    case _ => s.tally
  }

  ghost function CountersAfter(x: Setup, s: State, step: Step): (c: Counters) {
    var c := s.counters;
    match step
    case Enqueue(_) => if Full(x, s.flow) then c.(dropped := c.dropped + 1, rejected := c.rejected + 1) else c.(queued := c.queued + 1)
    case Admit(e, now) => if !LetThrough(x, s, e, now) && s.tally.RequeuesOf(e) >= MAX_REQUEUES then c.(dropped := c.dropped + 1) else c
    case Succeed(_) => c.(delivered := c.delivered + 1)
    case Fail(_, _) => c.(failed := c.failed + 1)
    case Fire(_) => if Full(x, s.flow) then c.(dropped := c.dropped + 1) else c
    case _ => c
  }

  ghost function BreakersAfter(x: Setup, s: State, step: Step): (b: map<Host, Circuit>)
    requires Enabled(x, s, step)
  {
    match step
    case Admit(e, now) => s.breakers[x.host[e] := AfterAllow(BreakerOf(x, s, e), x.cooldown, now)]
    case Succeed(e) => s.breakers[x.host[e] := After(BreakerOf(x, s, e), THRESHOLD, x.cooldown, Success)]
    case Fail(e, now) => s.breakers[x.host[e] := AfterFailure(BreakerOf(x, s, e), THRESHOLD, now)]
    case _ => s.breakers
  }

  ghost function Apply(x: Setup, s: State, step: Step): (t: State)
    requires Enabled(x, s, step)
  {
    State(s.closed || step.Close?, if step.Exit? then s.alive - 1 else s.alive, CallingAfter(s, step), AcceptedAfter(x, s, step),
          FlowAfter(x, s, step), TallyAfter(x, s, step), CountersAfter(x, s, step), BreakersAfter(x, s, step))
  }

  // ---- conservation ------------------------------------------------------------------------------------

  /** Every accepted event is in exactly one place, no other event in any. */
  ghost predicate Conserved(s: State) {
    (forall e: Event :: s.flow.Count(e) == if e in s.accepted then 1 else 0) && s.calling !! s.accepted
  }

  lemma {:induction false} TakenMoves(f: Flow, e: Event)
    requires f.queue != []
    ensures Taken(f).Count(e) == f.Count(e)
  {
    assert f.queue == [f.queue[0]] + f.queue[1..];
  }

  lemma {:induction false} AdmittedMoves(f: Flow, e: Event, allowed: bool, requeues: nat, k: Event)
    requires e in f.busy
    ensures Admitted(f, e, allowed, requeues).Count(k) == f.Count(k)
  {
  }

  lemma {:induction false} SettledMoves(f: Flow, e: Event, ok: bool, k: Event)
    requires e in f.sending
    ensures Settled(f, e, ok).Count(k) == f.Count(k)
  {
  }

  lemma {:induction false} FiredMoves(x: Setup, f: Flow, e: Event, k: Event)
    requires e in f.waiting
    ensures Fired(x, f, e).Count(k) == f.Count(k)
  {
  }

  /** A step moves events around; only a successful enqueue adds one. */
  lemma {:induction false} FlowMoves(x: Setup, s: State, step: Step, k: Event)
    requires Enabled(x, s, step)
    ensures FlowAfter(x, s, step).Count(k) == s.flow.Count(k) + if step.Enqueue? && !Full(x, s.flow) && step.e == k then 1 else 0
  {
    hide Taken, Admitted, Settled, Fired, BreakerOf, Full, LetThrough;
    if step.Take? {
      TakenMoves(s.flow, k);
    } else if step.Admit? {
      AdmittedMoves(s.flow, step.e, LetThrough(x, s, step.e, step.now), s.tally.RequeuesOf(step.e), k);
    } else if step.Succeed? || step.Fail? {
      SettledMoves(s.flow, step.e, step.Succeed?, k);
    } else if step.Fire? {
      FiredMoves(x, s.flow, step.e, k);
    }
  }

  lemma {:induction false} KeepsConserved(x: Setup, s: State, step: Step)
    requires Conserved(s) && Enabled(x, s, step)
    ensures Conserved(Apply(x, s, step))
  {
    hide FlowAfter, TallyAfter, CountersAfter, BreakersAfter, Full, Flow.Count;
    var t := Apply(x, s, step);
    forall k: Event ensures t.flow.Count(k) == if k in t.accepted then 1 else 0 { FlowMoves(x, s, step, k); }
  }

  // ---- requeues and entries ------------------------------------------------------------------------------

  /** An event entered the chain once per requeue, and once more when it is not on its
      way back to the queue. */
  ghost predicate Tallied(f: Flow, y: Tally, e: Event) {
    y.RequeuesOf(e) <= MAX_REQUEUES && y.EntriesOf(e) <= y.RequeuesOf(e) + 1
    && (multiset(f.queue)[e] + f.waiting[e] > 0 ==> y.EntriesOf(e) == y.RequeuesOf(e))
    && (f.busy[e] + f.sending[e] > 0 ==> y.EntriesOf(e) == y.RequeuesOf(e) + 1)
  }

  ghost predicate AllTallied(s: State) { forall e: Event :: e in s.accepted ==> Tallied(s.flow, s.tally, e) }

  lemma {:induction false} TakenTally(f: Flow, y: Tally, e: Event, k: Event)
    requires f.queue != [] && f.queue[0] == e && f.Count(k) == 1 && Tallied(f, y, k)
    ensures Tallied(Taken(f), y.(entries := y.entries[e := y.EntriesOf(e) + 1]), k)
  {
    assert f.queue == [e] + f.queue[1..];
    assert multiset(f.queue) == multiset{e} + multiset(f.queue[1..]);
  }

  lemma {:induction false} AdmittedTally(f: Flow, y: Tally, e: Event, allowed: bool, k: Event)
    requires e in f.busy && f.Count(k) == 1 && Tallied(f, y, k)
    ensures Tallied(Admitted(f, e, allowed, y.RequeuesOf(e)), AdmittedTo(y, e, allowed), k)
  {
    if e != k {
      assert (f.busy - multiset{e})[k] == f.busy[k];
    }
  }

  lemma {:induction false} EnqueuedTally(f: Flow, y: Tally, e: Event, k: Event)
    requires f.Count(e) == 0 && (k != e ==> Tallied(f, y, k))
    ensures Tallied(f.(queue := f.queue + [e]), Tally(y.requeues[e := 0], y.entries[e := 0]), k)
  {
  }

  /** Leaving the flow, or the queue's side of it, keeps the tally. */
  lemma {:induction false} MovedTally(f: Flow, g: Flow, y: Tally, k: Event)
    requires Tallied(f, y, k)
    requires multiset(g.queue)[k] + g.waiting[k] <= multiset(f.queue)[k] + f.waiting[k]
    requires g.busy[k] + g.sending[k] <= f.busy[k] + f.sending[k]
    ensures Tallied(g, y, k)
  {
  }

  /** The steps after which no event is closer to the queue or to a worker. */
  lemma {:induction false} OthersMove(x: Setup, s: State, step: Step, k: Event)
    requires Enabled(x, s, step) && !step.Enqueue? && !step.Take? && !step.Admit?
    ensures var f, g := s.flow, FlowAfter(x, s, step);
      multiset(g.queue)[k] + g.waiting[k] <= multiset(f.queue)[k] + f.waiting[k] && g.busy[k] + g.sending[k] <= f.busy[k] + f.sending[k]
    ensures TallyAfter(x, s, step) == s.tally
  {
  }

  lemma {:induction false} KeepsTally(x: Setup, s: State, step: Step)
    requires Conserved(s) && AllTallied(s) && Enabled(x, s, step)
    ensures AllTallied(Apply(x, s, step))
  {
    hide Tallied, Taken, Admitted, Settled, Fired, LetThrough, Flow.Count, CountersAfter, BreakersAfter;
    var t := Apply(x, s, step);
    forall k: Event | k in t.accepted ensures Tallied(t.flow, t.tally, k) {
      if step.Enqueue? {
        if !Full(x, s.flow) { EnqueuedTally(s.flow, s.tally, step.e, k); }
      } else if step.Take? {
        TakenTally(s.flow, s.tally, step.e, k);
      } else if step.Admit? {
        AdmittedTally(s.flow, s.tally, step.e, LetThrough(x, s, step.e, step.now), k);
      } else {
        OthersMove(x, s, step, k);
        MovedTally(s.flow, t.flow, s.tally, k);
      }
    }
  }

  // ---- counters, workers and breakers --------------------------------------------------------------------

  /** The reported counters are the books: drops include the calls turned away. */
  ghost predicate Counted(s: State) {
    s.counters.queued == |s.accepted| && s.counters.delivered == |s.flow.delivered| && s.counters.failed == |s.flow.failed|
    && s.counters.dropped == |s.flow.dropped| + s.counters.rejected
  }

  lemma {:induction false} KeepsCounted(x: Setup, s: State, step: Step)
    requires Conserved(s) && Counted(s) && Enabled(x, s, step)
    ensures Counted(Apply(x, s, step))
  {
    hide TallyAfter, BreakersAfter, LetThrough, Flow.Count;
  }

  /** The queue keeps its bound and no more events are worked on than there are workers. */
  ghost predicate Bounded(x: Setup, s: State) {
    |s.flow.queue| <= x.capacity && |s.flow.busy| + |s.flow.sending| <= s.alive
  }

  lemma {:induction false} KeepsBounded(x: Setup, s: State, step: Step)
    requires Bounded(x, s) && Enabled(x, s, step)
    ensures Bounded(x, Apply(x, s, step))
  {
    hide TallyAfter, BreakersAfter, CountersAfter, LetThrough;
  }

  /** Every breaker is closed exactly when its consecutive failures are below the
      threshold. */
  ghost predicate BreakersOk(s: State) { forall h <- s.breakers :: Consistent(s.breakers[h], THRESHOLD) }

  lemma {:induction false} KeepsBreakers(x: Setup, s: State, step: Step)
    requires BreakersOk(s) && Enabled(x, s, step)
    ensures BreakersOk(Apply(x, s, step))
  {
    hide TallyAfter, CountersAfter, FlowAfter, AcceptedAfter;
  }

  // ---- over whole runs ---------------------------------------------------------------------------------------

  ghost predicate Inv(x: Setup, s: State) {
    Conserved(s) && AllTallied(s) && Counted(s) && Bounded(x, s) && BreakersOk(s)
  }

  ghost predicate Linked(x: Setup, run: seq<State>, i: nat)
    requires i + 1 < |run|
  {
    exists step: Step :: Enabled(x, run[i], step) && run[i + 1] == Apply(x, run[i], step)
  }

  ghost predicate Run(x: Setup, run: seq<State>) {
    |run| > 0 && (exists workers: nat :: run[0] == Start(workers)) && forall i :: 0 <= i < |run| - 1 ==> Linked(x, run, i)
  }

  lemma {:induction false} StartKeeps(x: Setup, workers: nat)
    ensures Inv(x, Start(workers))
  {
  }

  lemma {:induction false} StepKeeps(x: Setup, s: State, step: Step)
    requires Inv(x, s) && Enabled(x, s, step)
    ensures Inv(x, Apply(x, s, step))
  {
    hide Conserved, AllTallied, Counted, Bounded, BreakersOk, Apply;
    KeepsConserved(x, s, step);
    KeepsTally(x, s, step);
    KeepsCounted(x, s, step);
    KeepsBounded(x, s, step);
    KeepsBreakers(x, s, step);
  }

  lemma {:induction false} RunKeeps(x: Setup, run: seq<State>, i: nat)
    requires Run(x, run) && i < |run|
    ensures Inv(x, run[i])
    decreases i
  {
    hide Inv, Enabled, Apply;
    if i == 0 {
      var workers: nat :| run[0] == Start(workers);
      StartKeeps(x, workers);
    } else {
      RunKeeps(x, run, i - 1);
      assert Linked(x, run, i - 1);
      var step :| Enabled(x, run[i - 1], step) && run[i] == Apply(x, run[i - 1], step);
      StepKeeps(x, run[i - 1], step);
    }
  }

  /** At every reachable state the accepted events are those delivered, failed, dropped
      after acceptance, queued, in a worker, waiting to requeue, or abandoned. */
  lemma {:induction false} Conservation(x: Setup, run: seq<State>, i: nat)
    requires Run(x, run) && i < |run|
    ensures var f := run[i].flow;
      run[i].counters.queued == |f.queue| + (|f.busy| + |f.sending|) + |f.waiting| + |f.delivered| + |f.failed| + |f.dropped| + |f.abandoned|
    ensures run[i].counters.delivered == |run[i].flow.delivered| && run[i].counters.failed == |run[i].flow.failed|
  {
    RunKeeps(x, run, i);
    var s := run[i];
    Summed(s.flow, s.accepted);
  }

  lemma {:induction false} Summed(f: Flow, accepted: set<Event>)
    requires forall e: Event :: f.Count(e) == if e in accepted then 1 else 0
    ensures |accepted| == |f.queue| + (|f.busy| + |f.sending|) + |f.waiting| + |f.delivered| + |f.failed| + |f.dropped| + |f.abandoned|
  {
    var all := multiset(f.queue) + f.busy + f.sending + f.waiting + f.delivered + f.failed + f.dropped + f.abandoned;
    forall e: Event ensures all[e] == multiset(accepted)[e] { assert all[e] == f.Count(e); }
    assert all == multiset(accepted);
    SetSize(accepted);
    assert |multiset(f.queue)| == |f.queue|;
  }

  lemma {:induction false} SetSize(s: set<Event>)
    ensures |multiset(s)| == |s|
    decreases |s|
  {
    if s != {} {
      var e :| e in s;
      SetSize(s - {e});
      assert multiset(s) == multiset(s - {e}) + multiset{e};
    }
  }

  /** No event is delivered twice or enters the delivery chain more than eleven times. */
  lemma {:induction false} AtMostOnce(x: Setup, run: seq<State>, i: nat, e: Event)
    requires Run(x, run) && i < |run|
    ensures run[i].flow.delivered[e] <= 1 && (e in run[i].flow.delivered ==> e in run[i].accepted)
    ensures e in run[i].accepted ==> run[i].tally.EntriesOf(e) <= MAX_REQUEUES + 1
  {
    RunKeeps(x, run, i);
    assert run[i].flow.Count(e) <= 1;
    if e in run[i].accepted { assert Tallied(run[i].flow, run[i].tally, e); }
  }

  // ---- breakers and deliveries -------------------------------------------------------------------------------

  /** The run takes these steps. */
  ghost predicate RunBy(x: Setup, run: seq<State>, steps: seq<Step>) {
    |run| == |steps| + 1 && (exists workers: nat :: run[0] == Start(workers))
    && forall i :: 0 <= i < |steps| ==> StepAt(x, run, steps, i)
  }

  ghost predicate StepAt(x: Setup, run: seq<State>, steps: seq<Step>, i: nat)
    requires |run| == |steps| + 1 && i < |steps|
  {
    Enabled(x, run[i], steps[i]) && run[i + 1] == Apply(x, run[i], steps[i])
  }

  /** The step is about an event of host h. */
  predicate About(x: Setup, step: Step, h: Host) {
    (step.Admit? || step.Succeed? || step.Fail?) && step.e in x.host && x.host[step.e] == h
  }

  /** What the steps ask of h's breaker and report to it. */
  function Calls(x: Setup, steps: seq<Step>, h: Host): (calls: seq<CircuitBreaker.Call>) {
    if steps == [] then []
    else
      var before, last := Calls(x, steps[..|steps| - 1], h), steps[|steps| - 1];
      if !About(x, last, h) then before
      else before + [match last case Admit(_, now) => Allow(now) case Fail(_, now) => Failure(now) case _ => Success]
  }

  /** The failed deliveries to h since the last one that succeeded. */
  function FailedSince(x: Setup, steps: seq<Step>, h: Host): (n: nat) {
    if steps == [] then 0
    else
      var before, last := FailedSince(x, steps[..|steps| - 1], h), steps[|steps| - 1];
      if !About(x, last, h) || last.Admit? then before else if last.Fail? then before + 1 else 0
  }

  lemma {:induction false} StreakIs(x: Setup, steps: seq<Step>, h: Host)
    ensures Streak(Calls(x, steps, h)) == FailedSince(x, steps, h)
    decreases |steps|
  {
    if steps != [] {
      var front := Calls(x, steps[..|steps| - 1], h);
      StreakIs(x, steps[..|steps| - 1], h);
      if About(x, steps[|steps| - 1], h) {
        var all := Calls(x, steps, h);
        assert all[..|all| - 1] == front;
      }
    }
  }

  function CircuitOf(s: State, h: Host): (c: Circuit) { if h in s.breakers then s.breakers[h] else CLOSED }

  lemma {:induction false} BreakerSteps(x: Setup, s: State, step: Step, h: Host)
    requires Enabled(x, s, step)
    ensures var c := CircuitOf(Apply(x, s, step), h);
      if !About(x, step, h) then c == CircuitOf(s, h)
      else if step.Admit? then c == After(CircuitOf(s, h), THRESHOLD, x.cooldown, Allow(step.now))
      else if step.Fail? then c == After(CircuitOf(s, h), THRESHOLD, x.cooldown, Failure(step.now))
      else c == After(CircuitOf(s, h), THRESHOLD, x.cooldown, Success)
  {
    hide FlowAfter, TallyAfter, CountersAfter, AcceptedAfter;
  }

  /** At every state of every run a host's breaker is where the deliveries to that host
      have taken it, one after another. */
  lemma {:induction false} BreakerHistory(x: Setup, run: seq<State>, steps: seq<Step>, i: nat, h: Host)
    requires RunBy(x, run, steps) && i < |run|
    ensures CircuitOf(run[i], h) == AfterAll(THRESHOLD, x.cooldown, Calls(x, steps[..i], h))
    decreases i
  {
    hide Enabled, Apply, After, AfterFailure, AfterAllow;
    if i > 0 {
      BreakerHistory(x, run, steps, i - 1, h);
      assert StepAt(x, run, steps, i - 1);
      BreakerSteps(x, run[i - 1], steps[i - 1], h);
      var part := steps[..i];
      assert part[..i - 1] == steps[..i - 1];
      if About(x, steps[i - 1], h) {
        var all := Calls(x, part, h);
        assert all[..|all| - 1] == Calls(x, steps[..i - 1], h);
      }
    }
  }

  /** A host's breaker is closed exactly while fewer than five deliveries to it failed since
      the last that succeeded. */
  lemma {:induction false} ClosedBelowThreshold(x: Setup, run: seq<State>, steps: seq<Step>, i: nat, h: Host)
    requires RunBy(x, run, steps) && i < |run|
    ensures CircuitOf(run[i], h).failures == FailedSince(x, steps[..i], h)
    ensures CircuitOf(run[i], h).status == Closed <==> FailedSince(x, steps[..i], h) < THRESHOLD
  {
    hide Enabled, Apply, AfterAll, Calls;
    BreakerHistory(x, run, steps, i, h);
    StreakIs(x, steps[..i], h);
    ClosedByStreak(THRESHOLD, x.cooldown, Calls(x, steps[..i], h));
  }

  /** The last that h's breaker heard was a delivery that failed at time f. */
  predicate JustFailed(x: Setup, steps: seq<Step>, h: Host, f: int) {
    var calls := Calls(x, steps, h);
    calls != [] && calls[|calls| - 1] == Failure(f)
  }

  /** An event that asks is sent on while fewer than five deliveries to its host failed in a
      row; and right after a fifth or later failure in a row, exactly when more than a
      cooldown has passed since. */
  lemma {:induction false} SentExactly(x: Setup, run: seq<State>, steps: seq<Step>, i: nat, f: int)
    requires RunBy(x, run, steps) && i < |steps| && steps[i].Admit? && steps[i].e in x.host
    ensures var h, sent := x.host[steps[i].e], run[i + 1].flow.sending == run[i].flow.sending + multiset{steps[i].e};
      (FailedSince(x, steps[..i], h) < THRESHOLD ==> sent)
      && (JustFailed(x, steps[..i], h, f) && FailedSince(x, steps[..i], h) >= THRESHOLD ==> (sent <==> steps[i].now > f + x.cooldown))
  {
    hide Apply, Enabled, AfterAll, Calls;
    var h, calls := x.host[steps[i].e], Calls(x, steps[..i], x.host[steps[i].e]);
    BreakerHistory(x, run, steps, i, h);
    ClosedBelowThreshold(x, run, steps, i, h);
    assert StepAt(x, run, steps, i);
    AdmittedWhenClosed(x, run[i], steps[i]);
    assert run[i].flow.sending + multiset{} != run[i].flow.sending + multiset{steps[i].e} by {
      assert (run[i].flow.sending + multiset{steps[i].e})[steps[i].e] == run[i].flow.sending[steps[i].e] + 1;
    }
    if JustFailed(x, steps[..i], h, f) {
      LastFailureIs(THRESHOLD, x.cooldown, calls, f);
      ClosedByStreak(THRESHOLD, x.cooldown, calls[..|calls| - 1]);
      StreakIs(x, steps[..i], h);
      StreakLast(calls, f);
      OpenBlocks(AfterAll(THRESHOLD, x.cooldown, calls[..|calls| - 1]), THRESHOLD, x.cooldown, f, steps[i].now);
    }
  }

  lemma {:induction false} LastFailureIs(threshold: nat, cooldown: int, calls: seq<CircuitBreaker.Call>, f: int)
    requires calls != [] && calls[|calls| - 1] == Failure(f)
    ensures AfterAll(threshold, cooldown, calls) == AfterFailure(AfterAll(threshold, cooldown, calls[..|calls| - 1]), threshold, f)
  {
  }

  lemma {:induction false} StreakLast(calls: seq<CircuitBreaker.Call>, f: int)
    requires calls != [] && calls[|calls| - 1] == Failure(f)
    ensures Streak(calls) == Streak(calls[..|calls| - 1]) + 1
  {
  }

  lemma {:induction false} AdmittedWhenClosed(x: Setup, s: State, step: Step)
    requires Enabled(x, s, step) && step.Admit?
    ensures LetThrough(x, s, step.e, step.now) <==> Allowed(CircuitOf(s, x.host[step.e]), x.cooldown, step.now)
    ensures var t := Apply(x, s, step);
      t.flow.sending == s.flow.sending + if Allowed(CircuitOf(s, x.host[step.e]), x.cooldown, step.now) then multiset{step.e} else multiset{}
  {
    hide TallyAfter, CountersAfter, BreakersAfter;
  }

  // ---- what becomes of an event --------------------------------------------------------------------------------

  /** How often a worker took the event. */
  function TakesOf(steps: seq<Step>, e: Event): (n: nat) {
    if steps == [] then 0 else TakesOf(steps[..|steps| - 1], e) + if steps[|steps| - 1] == Take(e) then 1 else 0
  }

  lemma {:induction false} EntriesStep(x: Setup, s: State, step: Step, e: Event)
    requires Conserved(s) && Enabled(x, s, step)
    ensures var t := Apply(x, s, step);
      (e in t.accepted ==> t.tally.EntriesOf(e) == (if e in s.accepted then s.tally.EntriesOf(e) else 0) + (if step == Take(e) then 1 else 0))
      && (e in s.accepted ==> e in t.accepted) && (step == Take(e) ==> e in s.accepted)
  {
    hide FlowAfter, CountersAfter, BreakersAfter, LetThrough;
    if step == Take(e) { assert e in multiset(s.flow.queue) && s.flow.Count(e) > 0; }
  }

  /** The tally's entries are the steps that took the event. */
  lemma {:induction false} EntriesAre(x: Setup, run: seq<State>, steps: seq<Step>, i: nat, e: Event)
    requires RunBy(x, run, steps) && i < |run|
    ensures Inv(x, run[i]) && TakesOf(steps[..i], e) == if e in run[i].accepted then run[i].tally.EntriesOf(e) else 0
    decreases i
  {
    hide Enabled, Apply, Inv, Conserved;
    if i == 0 {
      var workers: nat :| run[0] == Start(workers);
      StartKeeps(x, workers);
    } else {
      EntriesAre(x, run, steps, i - 1, e);
      assert StepAt(x, run, steps, i - 1);
      StepKeeps(x, run[i - 1], steps[i - 1]);
      assert steps[..i][..i - 1] == steps[..i - 1];
      assert Conserved(run[i - 1]) by { InvFacts(x, run[i - 1], e); }
      EntriesStep(x, run[i - 1], steps[i - 1], e);
    }
  }

  lemma {:induction false} InvFacts(x: Setup, s: State, e: Event)
    requires Inv(x, s)
    ensures Conserved(s) && (e in s.flow.busy ==> e in s.accepted && Tallied(s.flow, s.tally, e))
  {
    assert s.flow.Count(e) == if e in s.accepted then 1 else 0;
  }

  /** Step j loses the event: its cooldown is over and the queue is full, or its host's
      breaker refuses it the eleventh time. */
  ghost predicate DropsAt(x: Setup, run: seq<State>, steps: seq<Step>, j: nat, e: Event)
    requires |run| == |steps| + 1 && j < |steps|
  {
    (steps[j] == Fire(e) && |run[j].flow.queue| >= x.capacity)
    || (steps[j].Admit? && steps[j].e == e && e in x.host && TakesOf(steps[..j], e) == 11
        && !Allowed(CircuitOf(run[j], x.host[e]), x.cooldown, steps[j].now))
  }

  ghost predicate FailsAt(steps: seq<Step>, j: nat, e: Event)
    requires j < |steps|
  {
    steps[j].Fail? && steps[j].e == e
  }

  ghost predicate AcceptsAt(x: Setup, run: seq<State>, steps: seq<Step>, j: nat, e: Event)
    requires |run| == |steps| + 1 && j < |steps|
  {
    steps[j] == Enqueue(e) && |run[j].flow.queue| < x.capacity
  }

  /** One step settles an event exactly in these ways. */
  lemma {:induction false} FateStep(x: Setup, run: seq<State>, steps: seq<Step>, j: nat, e: Event)
    requires RunBy(x, run, steps) && j < |steps|
    ensures var f, g := run[j].flow, run[j + 1].flow;
      (e in g.delivered <==> e in f.delivered || steps[j] == Succeed(e)) && (e in g.failed <==> e in f.failed || FailsAt(steps, j, e))
      && (e in g.abandoned <==> e in f.abandoned || steps[j] == GiveUp(e)) && (e in g.dropped <==> e in f.dropped || DropsAt(x, run, steps, j, e))
    ensures e in run[j + 1].accepted <==> e in run[j].accepted || AcceptsAt(x, run, steps, j, e)
  {
    hide Inv, TallyAfter, CountersAfter, BreakersAfter, Tallied;
    assert StepAt(x, run, steps, j);
    EntriesAre(x, run, steps, j, e);
    InvFacts(x, run[j], e);
    if steps[j].Admit? { RefusedLast(run[j].flow, run[j].tally, steps[j].e); }
  }

  lemma {:induction false} RefusedLast(f: Flow, y: Tally, e: Event)
    requires e in f.busy
    ensures Tallied(f, y, e) ==> (y.RequeuesOf(e) >= MAX_REQUEUES <==> y.EntriesOf(e) == 11)
  {
  }

  /** An event is accepted, delivered, failed, dropped or abandoned exactly when a step of
      the run did that: dropped only at its eleventh refusal or for want of room. */
  lemma {:induction false} FateExactly(x: Setup, run: seq<State>, steps: seq<Step>, i: nat, e: Event)
    requires RunBy(x, run, steps) && i < |run|
    ensures e in run[i].accepted <==> exists j :: 0 <= j < i && AcceptsAt(x, run, steps, j, e)
    ensures e in run[i].flow.delivered <==> exists j :: 0 <= j < i && steps[j] == Succeed(e)
    ensures e in run[i].flow.failed <==> exists j :: 0 <= j < i && FailsAt(steps, j, e)
    ensures e in run[i].flow.dropped <==> exists j :: 0 <= j < i && DropsAt(x, run, steps, j, e)
    ensures e in run[i].flow.abandoned <==> exists j :: 0 <= j < i && steps[j] == GiveUp(e)
    decreases i
  {
    hide StepAt, DropsAt, AcceptsAt, FailsAt;
    if i > 0 {
      FateExactly(x, run, steps, i - 1, e);
      FateStep(x, run, steps, i - 1, e);
    }
  }

  /** The events that came into the queue in the first i steps, newly or again. */
  ghost function Came(x: Setup, run: seq<State>, steps: seq<Step>, i: nat): (r: seq<Event>)
    requires |run| == |steps| + 1 && i <= |steps|
    decreases i
  {
    if i == 0 then []
    else
      var before, step := Came(x, run, steps, i - 1), steps[i - 1];
      if (step.Enqueue? || step.Fire?) && |run[i - 1].flow.queue| < x.capacity then before + [step.e] else before
  }

  /** The events that workers took. */
  function Went(steps: seq<Step>, i: nat): (r: seq<Event>)
    requires i <= |steps|
    decreases i
  {
    if i == 0 then [] else if steps[i - 1].Take? then Went(steps, i - 1) + [steps[i - 1].e] else Went(steps, i - 1)
  }

  lemma {:induction false} QueueStep(x: Setup, s: State, step: Step)
    requires Enabled(x, s, step)
    ensures var q, r := s.flow.queue, Apply(x, s, step).flow.queue;
      if step.Take? then [step.e] + r == q
      else r == if (step.Enqueue? || step.Fire?) && |q| < x.capacity then q + [step.e] else q
  {
    hide TallyAfter, CountersAfter, BreakersAfter, LetThrough;
  }

  /** Workers take events in the order they came, and the queue takes one whenever there is
      room. */
  lemma {:induction false} InOrder(x: Setup, run: seq<State>, steps: seq<Step>, i: nat)
    requires RunBy(x, run, steps) && i <= |steps|
    ensures Came(x, run, steps, i) == Went(steps, i) + run[i].flow.queue
    decreases i
  {
    hide Enabled, Apply;
    if i > 0 {
      InOrder(x, run, steps, i - 1);
      assert StepAt(x, run, steps, i - 1);
      QueueStep(x, run[i - 1], steps[i - 1]);
    }
  }

  /** Every run takes some steps. */
  lemma {:induction false} StepsOf(x: Setup, run: seq<State>, n: nat) returns (steps: seq<Step>)
    requires Run(x, run) && n < |run|
    ensures RunBy(x, run[..n + 1], steps)
    decreases n
  {
    hide Enabled, Apply;
    steps := [];
    if n > 0 {
      var before := StepsOf(x, run, n - 1);
      assert Linked(x, run, n - 1);
      var step :| Enabled(x, run[n - 1], step) && run[n] == Apply(x, run[n - 1], step);
      steps := before + [step];
      var front, shorter := run[..n + 1], run[..n];
      forall i: nat | i < |steps| ensures StepAt(x, front, steps, i) {
        if i < |before| { assert StepAt(x, shorter, before, i); }
      }
    }
  }

  /** A step that puts an event into the queue. */
  ghost predicate Arrives(x: Setup, s: State, step: Step) {
    (step.Enqueue? || step.Fire?) && !Full(x, s.flow)
  }

  /** When no worker is left the queue only grows, by what arrives. */
  lemma {:induction false} NobodyTakes(x: Setup, s: State, step: Step)
    requires Enabled(x, s, step) && s.alive == 0
    ensures Apply(x, s, step).alive == 0
    ensures Apply(x, s, step).flow.queue == s.flow.queue + if Arrives(x, s, step) then [step.e] else []
  {
    hide LetThrough, TallyAfter, CountersAfter, BreakersAfter;
  }

  /** The last worker leaves an empty queue behind. */
  lemma {:induction false} LastLeaves(x: Setup, s: State, step: Step)
    requires Enabled(x, s, step) && s.alive > 0 && Apply(x, s, step).alive == 0
    ensures Apply(x, s, step).flow.queue == []
  {
    hide LetThrough, TallyAfter, CountersAfter, BreakersAfter;
  }

  /** An event arrived between states j and j + 1 of the run, when no worker was left. */
  ghost predicate ArrivesLate(x: Setup, run: seq<State>, j: nat)
    requires j + 1 < |run|
  {
    run[j].alive == 0
    && exists step: Step :: Enabled(x, run[j], step) && Arrives(x, run[j], step) && run[j + 1] == Apply(x, run[j], step)
  }

  /** When no worker is left, events are stranded in the queue if and only if some arrived
      after the last worker had gone; and then they stay. */
  lemma {:induction false} StrandedExactly(x: Setup, run: seq<State>, i: nat)
    requires Run(x, run) && i < |run| && run[i].alive == 0
    ensures run[i].flow.queue != [] <==> exists j: nat :: j < i && ArrivesLate(x, run, j)
    decreases i
  {
    hide Enabled, Apply, Arrives;
    if i > 0 {
      assert Linked(x, run, i - 1);
      var s := run[i - 1];
      var step :| Enabled(x, s, step) && run[i] == Apply(x, s, step);
      if s.alive > 0 {
        LastLeaves(x, s, step);
        AliveBefore(x, run, i - 1);
      } else {
        StrandedExactly(x, run, i - 1);
        NobodyTakes(x, s, step);
        if Arrives(x, s, step) {
          assert ArrivesLate(x, run, i - 1);
        } else if j: nat :| j < i && ArrivesLate(x, run, j) {
          if j == i - 1 { LateGrows(x, run, j); }
          assert exists k: nat :: k < i - 1 && ArrivesLate(x, run, k);
        }
      }
    }
  }

  lemma {:induction false} LateGrows(x: Setup, run: seq<State>, j: nat)
    requires j + 1 < |run| && ArrivesLate(x, run, j)
    ensures |run[j + 1].flow.queue| == |run[j].flow.queue| + 1
  {
    hide Enabled, Apply, Arrives;
    var step :| Enabled(x, run[j], step) && Arrives(x, run[j], step) && run[j + 1] == Apply(x, run[j], step);
    NobodyTakes(x, run[j], step);
  }

  /** Workers only leave. */
  lemma {:induction false} AliveBefore(x: Setup, run: seq<State>, i: nat)
    requires Run(x, run) && i < |run| && run[i].alive > 0
    ensures forall j: nat :: j <= i ==> run[j].alive > 0
    decreases i
  {
    hide Enabled, Apply;
    if i > 0 {
      assert Linked(x, run, i - 1);
      var step :| Enabled(x, run[i - 1], step) && run[i] == Apply(x, run[i - 1], step);
      OnlyLeave(x, run[i - 1], step);
      AliveBefore(x, run, i - 1);
    }
  }

  lemma {:induction false} OnlyLeave(x: Setup, s: State, step: Step)
    requires Enabled(x, s, step)
    ensures Apply(x, s, step).alive <= s.alive
  {
    hide LetThrough, TallyAfter, CountersAfter, BreakersAfter, FlowAfter;
  }

  /** No call is in flight and no event can come back to the queue. */
  ghost predicate Quiet(s: State) {
    s.closed && s.calling == {} && s.flow.queue == [] && s.flow.busy == multiset{} && s.flow.waiting == multiset{}
  }

  lemma {:induction false} QuietSteps(x: Setup, s: State, step: Step)
    requires Enabled(x, s, step) && Quiet(s)
    ensures Quiet(Apply(x, s, step)) && Apply(x, s, step).accepted == s.accepted
  {
    hide LetThrough, TallyAfter, CountersAfter, BreakersAfter;
  }

  /** When the dispatcher shuts down with no call in flight and nothing queued, waiting or
      newly taken by a worker, then nothing is ever stranded: once no worker is left
      every accepted event was delivered, failed, dropped or abandoned. */
  lemma {:induction false} QuietClose(x: Setup, run: seq<State>, i: nat, j: nat)
    requires Run(x, run) && i <= j < |run| && Quiet(run[i])
    ensures Quiet(run[j]) && run[j].accepted == run[i].accepted
    ensures run[j].alive == 0 ==> var f := run[j].flow;
      run[j].counters.queued == |f.delivered| + |f.failed| + |f.dropped| + |f.abandoned|
    decreases j
  {
    hide Enabled, Apply;
    if i < j {
      QuietClose(x, run, i, j - 1);
      assert Linked(x, run, j - 1);
      var step :| Enabled(x, run[j - 1], step) && run[j] == Apply(x, run[j - 1], step);
      hide Quiet;
      QuietSteps(x, run[j - 1], step);
    }
    QuietSettled(x, run, j);
  }

  lemma {:induction false} QuietSettled(x: Setup, run: seq<State>, j: nat)
    requires Run(x, run) && j < |run| && Quiet(run[j])
    ensures run[j].alive == 0 ==> var f := run[j].flow;
      run[j].counters.queued == |f.delivered| + |f.failed| + |f.dropped| + |f.abandoned|
  {
    Conservation(x, run, j);
    RunKeeps(x, run, j);
  }

  lemma {:induction false} LateCall(x: Setup, e: Event)
    requires e in x.host
    ensures Enabled(x, Start(1), Call(e)) && Apply(x, Start(1), Call(e)) == Start(1).(calling := {e})
  {
  }

  lemma {:induction false} LateClose(x: Setup, s: State)
    requires !s.closed
    ensures Enabled(x, s, Close) && Apply(x, s, Close) == s.(closed := true)
  {
  }

  lemma {:induction false} LateExit(x: Setup, s: State)
    requires s.closed && s.alive == 1 && s.flow == EMPTY
    ensures Enabled(x, s, Exit) && Apply(x, s, Exit) == s.(alive := 0)
  {
  }

  lemma {:induction false} LateEnqueue(x: Setup, s: State, e: Event)
    requires x.capacity > 0 && e in s.calling && s.flow == EMPTY
    ensures Enabled(x, s, Enqueue(e))
    ensures var t := Apply(x, s, Enqueue(e)); t.closed == s.closed && t.alive == s.alive && e in t.accepted && t.flow.queue == [e]
  {
  }

  /** Such a run exists, so acceptance does not promise delivery: a call that passed the closed check before the
      shutdown may enqueue after the last worker has left. */
  lemma {:induction false} Stranded(x: Setup, e: Event) returns (run: seq<State>)
    requires x.capacity > 0 && e in x.host
    ensures Run(x, run)
    ensures var s := run[|run| - 1]; s.closed && s.alive == 0 && e in s.accepted && s.flow.queue == [e]
  {
    hide Enabled, Apply;
    LateCall(x, e);
    var a := Start(1);
    var b := a.(calling := {e});
    LateClose(x, b);
    var c := b.(closed := true);
    LateExit(x, c);
    var d := c.(alive := 0);
    LateEnqueue(x, d, e);
    run := [a, b, c, d, Apply(x, d, Enqueue(e))];
    assert Linked(x, run, 0) && Linked(x, run, 1) && Linked(x, run, 2) && Linked(x, run, 3);
  }
}
