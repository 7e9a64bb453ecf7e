/**
 A warm pod's sidecar: claim requests race each other for a one-shot gate, and the
 winner races the pod's shutdown for the release of what it mounted.
 */
module Sidecar {
  import opened Bytes

  type Request = nat

  /** The published claim record. */
  datatype Record = Record(claimed: bool, failed: bool)

  /** Where a claim request stands. */
  datatype Pc =
    | Arrived | AtClosing | AtGate
    | Decoding | Preparing | Mounting | Storing | Checking | Undoing | Signalling | Arming | Answering | Failing
    | Answered(status: nat)

  /** Where shutdown stands. */
  datatype Shutdown = Running | Closing | Draining | Releasing(found: bool) | Stopped

  /** What a claim mounted and what became of it.  Unmounting keeps what it fails to
      unmount, so that it can be tried again. */
  datatype Mounts =
    | NotYet
    | Nothing                 // there was nothing to mount
    | RolledBack              // mounting failed and what was mounted is gone
    | Leaked                  // mounting failed and so did its rollback
    | Up(tries: nat)          // mounted, after that many failed releases
    | Down                    // mounted and released
  {
    predicate Left() { Leaked? || Up? }
  }

  /** A release was tried; with nothing mounted it succeeds. */
  function Released(m: Mounts, ok: bool): (r: Mounts) {
    match m case Up(tries) => if ok then Down else Up(tries + 1) case _ => m
  }

  /** What requests and shutdown share. */
  datatype Shared = Shared(
    claimed: bool,             // the gate
    record: Record,
    shutdown: Shutdown,
    stored: bool,              // a runner is kept for shutdown
    signalled: bool,           // the workload was told what to run
    bound: bool,               // the data plane leads to the workload
    mounts: Mounts,
    releasedByClaim: bool,     // the claim tried to release what it mounted
    releasedByShutdown: bool)  // and so did shutdown
  {
    /** The flag that makes requests refuse and undo. */
    predicate IsClosing() { shutdown != Running }
  }

  datatype State = State(requests: map<Request, Pc>, sh: Shared)

  const INITIAL := State(map[], Shared(false, Record(false, false), Running, false, false, false, NotYet, false, false))

  /** The request went through the gate. */
  predicate Past(pc: Pc) {
    match pc
    case Arrived => false case AtClosing => false case AtGate => false
    case Answered(status) => status == 200 || status == 400 || status == 422
    case _ => true
  }

  // ---- steps ------------------------------------------------------------------------------------

  datatype Step =
    | Auth(ok: bool) | SeeClosing | Gate
    | Decode(ok: bool) | Prepare(ok: bool) | MountOk(any: bool) | MountFails(undone: bool)
    | Store | Check | Undo(ok: bool) | Signal(ok: bool) | Arm | Answer | PublishFailure

  /** What a step does to the shared state and to its request's position; None when the
      request is not there. */
  function Move(sh: Shared, pc: Pc, step: Step): (r: Option<(Shared, Pc)>) {
    match (step, pc)
    case (Auth(ok), Arrived) => Some((sh, if ok then AtClosing else Answered(401)))
    case (SeeClosing, AtClosing) => Some((sh, if sh.IsClosing() then Answered(409) else AtGate))
    case (Gate, AtGate) => Some(if sh.claimed then (sh, Answered(409)) else (sh.(claimed := true), Decoding))
    case (Decode(ok), Decoding) =>
      Some((sh.(record := Record(true, !ok)), if ok then Preparing else Answered(400)))
    case (Prepare(ok), Preparing) => Some((sh, if ok then Mounting else Failing))
    case (MountOk(any), Mounting) => Some((sh.(mounts := if any then Up(0) else Nothing), Storing))
    case (MountFails(undone), Mounting) => Some((sh.(mounts := if undone then RolledBack else Leaked), Failing))
    case (Store, Storing) => Some((sh.(stored := true), Checking))
    case (Check, Checking) => Some((sh, if sh.IsClosing() then Undoing else Signalling))
    case (Undo(ok), Undoing) =>
      if ok || sh.mounts.Up? then Some((sh.(releasedByClaim := true, mounts := Released(sh.mounts, ok)), Failing)) else None
    case (Signal(ok), Signalling) => Some(if ok then (sh.(signalled := true), Arming) else (sh, Failing))
    case (Arm, Arming) => Some((sh.(bound := true), Answering))
    case (Answer, Answering) => Some((sh, Answered(200)))
    case (PublishFailure, Failing) => Some((sh.(record := Record(true, true)), Answered(422)))
    case _ => None
  }

  /** Request h takes a step. */
  ghost predicate Takes(s: State, t: State, h: Request, step: Step) {
    h in s.requests
    && var r := Move(s.sh, s.requests[h], step);
    r.Some? && t == State(s.requests[h := r.value.1], r.value.0)
  }

  /** Shutdown: refuse claims, drain, look for a runner, release it; ok says whether
      releasing succeeds.  A failure is logged and left at that. */
  function ShutDown(sh: Shared, ok: bool): (r: Option<Shared>) {
    match sh.shutdown
    case Running => Some(sh.(shutdown := Closing))
    case Closing => Some(sh.(shutdown := Draining))
    case Draining => Some(sh.(shutdown := Releasing(sh.stored)))
    case Releasing(found) =>
      if !found then Some(sh.(shutdown := Stopped))
      else if ok || sh.mounts.Up? then Some(sh.(shutdown := Stopped, releasedByShutdown := true, mounts := Released(sh.mounts, ok)))
      else None
    case Stopped => None
  }

  ghost predicate ShutsDown(s: State, t: State, ok: bool) {
    ShutDown(s.sh, ok).Some? && t == s.(sh := ShutDown(s.sh, ok).value)
  }

  ghost predicate Arrives(s: State, t: State) {
    exists h: Request :: h !in s.requests && t == s.(requests := s.requests[h := Arrived])
  }

  ghost predicate Next(s: State, t: State) {
    Arrives(s, t) || (exists ok: bool :: ShutsDown(s, t, ok)) || (exists h: Request, step: Step :: Takes(s, t, h, step))
  }

  // ---- what every reachable state keeps ------------------------------------------------------------

  predicate Sealed(pc: Pc) { pc == Answered(400) || pc == Answered(422) }

  /** Shutdown looked for a runner to release and there was none. */
  predicate MissedByShutdown(sh: Shared) {
    sh.shutdown == Releasing(false) || (sh.shutdown == Stopped && !sh.releasedByShutdown)
  }

  /** What the winner's position says about the shared state. */
  predicate WinnerOk(sh: Shared, pc: Pc) { Past(pc) && sh.claimed && ClaimOk(sh, pc) && MountsOk(sh, pc) }

  /** What it says about the claim. */
  predicate ClaimOk(sh: Shared, pc: Pc) {
    (sh.record.claimed <==> pc != Decoding) && (sh.record.failed <==> Sealed(pc))
    && (sh.bound <==> pc == Answering || pc == Answered(200))
    && (sh.signalled ==> pc == Arming || sh.bound)
    && (pc == Arming || sh.bound ==> sh.signalled)
    && (sh.stored ==> pc == Checking || pc == Undoing || pc == Signalling || pc == Arming || pc == Answering || pc == Failing || pc.Answered?)
    && (pc == Checking || pc == Undoing || pc == Signalling || pc == Arming || sh.bound ==> sh.stored)
    && (sh.releasedByClaim ==> sh.stored && (pc == Failing || Sealed(pc)))
    && (pc == Undoing ==> sh.IsClosing())
    && (MissedByShutdown(sh) && sh.stored ==> pc == Checking || pc == Undoing || sh.releasedByClaim)
  }

  /** How often a release was tried. */
  function Tries(sh: Shared): (n: nat) { (if sh.releasedByClaim then 1 else 0) + (if sh.releasedByShutdown then 1 else 0) }

  /** A runner is kept exactly for what was mounted, and every failed release is counted. */
  predicate MountsOk(sh: Shared, pc: Pc) {
    (pc == Decoding || pc == Preparing || pc == Mounting ==> sh.mounts == NotYet)
    && (pc == Storing || sh.stored ==> sh.mounts.Nothing? || sh.mounts.Up? || sh.mounts.Down?)
    && (sh.mounts.Nothing? || sh.mounts.Up? || sh.mounts.Down? ==> pc == Storing || sh.stored)
    && (sh.mounts.Up? ==> sh.mounts.tries == Tries(sh)) && (sh.mounts.Down? ==> Tries(sh) > 0)
  }

  /** Nobody has claimed the pod. */
  predicate Untouched(sh: Shared) {
    !sh.claimed && sh.record == Record(false, false) && !sh.stored && !sh.signalled && !sh.bound && sh.mounts == NotYet
    && !sh.releasedByClaim
  }

  predicate ShutdownOk(sh: Shared) {
    (sh.releasedByShutdown ==> sh.stored && sh.shutdown == Stopped) && (sh.shutdown == Releasing(true) ==> sh.stored)
  }

  /** Request w, and no other, went through the gate. */
  ghost predicate Won(s: State, w: Request) {
    w in s.requests && WinnerOk(s.sh, s.requests[w]) && forall h <- s.requests :: Past(s.requests[h]) ==> h == w
  }

  ghost predicate Unclaimed(s: State) {
    Untouched(s.sh) && forall h <- s.requests :: !Past(s.requests[h])
  }

  ghost predicate Inv(s: State) { ShutdownOk(s.sh) && (Unclaimed(s) || exists w :: Won(s, w)) }

  /** Before the gate a request changes nothing but, at the gate, who won. */
  lemma {:induction false} BeforeGate(sh: Shared, pc: Pc, step: Step)
    requires Move(sh, pc, step).Some? && !Past(pc)
    ensures var (to, at) := Move(sh, pc, step).value;
      if Past(at) then pc == AtGate && !sh.claimed && to == sh.(claimed := true) && at == Decoding else to == sh
  {
  }

  lemma {:induction false} MountsStep(sh: Shared, pc: Pc, step: Step)
    requires Move(sh, pc, step).Some? && WinnerOk(sh, pc) && ShutdownOk(sh)
    ensures var (to, at) := Move(sh, pc, step).value; MountsOk(to, at)
  {
  }

  lemma {:induction false} ClaimStep(sh: Shared, pc: Pc, step: Step)
    requires Move(sh, pc, step).Some? && Past(pc) && sh.claimed && ClaimOk(sh, pc)
    ensures var (to, at) := Move(sh, pc, step).value; Past(at) && to.claimed && ClaimOk(to, at)
  {
    hide Released;
  }

  lemma {:induction false} ShutdownStays(sh: Shared, pc: Pc, step: Step)
    requires Move(sh, pc, step).Some? && ShutdownOk(sh)
    ensures ShutdownOk(Move(sh, pc, step).value.0)
  {
    hide Released;
  }

  /** Every step of the winner keeps its position in line with the shared state. */
  lemma {:induction false} WinnerSteps(sh: Shared, pc: Pc, step: Step)
    requires Move(sh, pc, step).Some? && WinnerOk(sh, pc) && ShutdownOk(sh)
    ensures var (to, at) := Move(sh, pc, step).value; WinnerOk(to, at) && ShutdownOk(to)
  {
    hide Move, MountsOk, ClaimOk, ShutdownOk, Past;
    MountsStep(sh, pc, step);
    ClaimStep(sh, pc, step);
    ShutdownStays(sh, pc, step);
  }

  lemma {:induction false} ShutdownSteps(sh: Shared, ok: bool)
    requires ShutDown(sh, ok).Some? && ShutdownOk(sh)
    ensures ShutdownOk(ShutDown(sh, ok).value) && (Untouched(sh) ==> Untouched(ShutDown(sh, ok).value))
  {
  }

  lemma {:induction false} ShutdownMounts(sh: Shared, ok: bool, pc: Pc)
    requires ShutDown(sh, ok).Some? && ShutdownOk(sh) && ClaimOk(sh, pc) && MountsOk(sh, pc)
    ensures MountsOk(ShutDown(sh, ok).value, pc)
  {
    hide ClaimOk;
  }

  lemma {:induction false} ShutdownSeen(sh: Shared, ok: bool, pc: Pc)
    requires ShutDown(sh, ok).Some? && ShutdownOk(sh) && WinnerOk(sh, pc)
    ensures WinnerOk(ShutDown(sh, ok).value, pc)
  {
    ShutdownMounts(sh, ok, pc);
    hide Past, MountsOk;
  }

  lemma {:induction false} GateOpens(sh: Shared)
    requires Untouched(sh) && ShutdownOk(sh)
    ensures WinnerOk(sh.(claimed := true), Decoding) && ShutdownOk(sh.(claimed := true))
  {
  }

  lemma {:induction false} TakesKeeps(s: State, t: State, h: Request, step: Step)
    requires Inv(s) && Takes(s, t, h, step)
    ensures Inv(t)
  {
    hide Move, WinnerOk, Untouched, ShutdownOk;
    var pc := s.requests[h];
    if Past(pc) {
      var w :| Won(s, w);
      WinnerSteps(s.sh, pc, step);
      WinnerIsPast(t.sh, t.requests[h]);
      assert Won(t, h);
    } else {
      BeforeGate(s.sh, pc, step);
      if Past(t.requests[h]) {
        NobodyYet(s);
        GateOpens(s.sh);
        assert Won(t, h);
      } else if w :| Won(s, w) {
        WinnerIsPast(s.sh, s.requests[w]);
        assert Won(t, w);
      } else {
        assert Unclaimed(t);
      }
    }
  }

  lemma {:induction false} WinnerIsPast(sh: Shared, pc: Pc)
    requires WinnerOk(sh, pc)
    ensures Past(pc) && sh.claimed
  {
  }

  lemma {:induction false} NobodyYet(s: State)
    requires Inv(s) && !s.sh.claimed
    ensures Unclaimed(s)
  {
  }

  lemma {:induction false} ShutdownKeeps(s: State, t: State, ok: bool)
    requires Inv(s) && ShutsDown(s, t, ok)
    ensures Inv(t)
  {
    hide ShutDown, WinnerOk, Untouched, ShutdownOk;
    ShutdownSteps(s.sh, ok);
    if w :| Won(s, w) {
      ShutdownSeen(s.sh, ok, s.requests[w]);
      assert Won(t, w);
    } else {
      assert Unclaimed(t);
    }
  }

  lemma {:induction false} ArrivalKeeps(s: State, t: State)
    requires Inv(s) && Arrives(s, t)
    ensures Inv(t)
  {
    hide WinnerOk, Untouched, ShutdownOk;
    if w :| Won(s, w) { assert Won(t, w); } else { assert Unclaimed(t); }
  }

  lemma {:induction false} NextKeeps(s: State, t: State)
    requires Inv(s) && Next(s, t)
    ensures Inv(t)
  {
    hide Inv, Takes, ShutsDown, Arrives;
    if ok :| ShutsDown(s, t, ok) {
      ShutdownKeeps(s, t, ok);
    } else if Arrives(s, t) {
      ArrivalKeeps(s, t);
    } else {
      var h, step :| Takes(s, t, h, step);
      TakesKeeps(s, t, h, step);
    }
  }

  // ---- over whole runs --------------------------------------------------------------------------

  ghost predicate Linked(run: seq<State>, i: nat)
    requires i + 1 < |run|
  {
    Next(run[i], run[i + 1])
  }

  ghost predicate Run(run: seq<State>) {
    |run| > 0 && run[0] == INITIAL && forall i :: 0 <= i < |run| - 1 ==> Linked(run, i)
  }

  /** At every state of every interleaving the invariant holds, and the gate is taken
      exactly when some request has won it. */
  lemma {:induction false} RunKeeps(run: seq<State>, i: nat)
    requires Run(run) && i < |run|
    ensures Inv(run[i]) && (run[i].sh.claimed <==> exists w :: Won(run[i], w))
    decreases i
  {
    hide Next;
    if i > 0 {
      RunKeeps(run, i - 1);
      assert Linked(run, i - 1);
      NextKeeps(run[i - 1], run[i]);
    }
  }

  /** At most one claim ever goes through the gate, so at most one is answered 200. */
  lemma {:induction false} AtMostOneClaim(run: seq<State>, i: nat, h: Request, k: Request)
    requires Run(run) && i < |run| && h in run[i].requests && k in run[i].requests
    requires Past(run[i].requests[h]) && Past(run[i].requests[k])
    ensures h == k
  {
    RunKeeps(run, i);
  }

  /** The data plane is bound exactly when a claim succeeded, answered already or about
      to be: after its workload was signalled, and never on a failed record. */
  lemma {:induction false} BoundMeansSucceeded(run: seq<State>, i: nat)
    requires Run(run) && i < |run|
    ensures run[i].sh.bound <==>
      exists h :: h in run[i].requests && (run[i].requests[h] == Answering || run[i].requests[h] == Answered(200))
    ensures run[i].sh.bound ==> run[i].sh.signalled && run[i].sh.record == Record(true, false)
  {
    RunKeeps(run, i);
    var s := run[i];
    if h :| h in s.requests && (s.requests[h] == Answering || s.requests[h] == Answered(200)) { assert Past(s.requests[h]); }
  }

  /** A failed claim record never becomes healthy, and the pod never serves. */
  lemma {:induction false} FailureIsFinal(run: seq<State>, i: nat, j: nat)
    requires Run(run) && i <= j < |run| && run[i].sh.record.failed
    ensures run[j].sh.record.failed && !run[j].sh.bound
    decreases j
  {
    hide Next;
    RunKeeps(run, j);
    if i < j {
      FailureIsFinal(run, i, j - 1);
      RunKeeps(run, j - 1);
      assert Linked(run, j - 1);
      hide Inv;
      FailureStays(run[j - 1], run[j]);
    }
  }

  lemma {:induction false} SealedIsDone(sh: Shared, pc: Pc, step: Step)
    requires Sealed(pc)
    ensures Move(sh, pc, step) == None
  {
  }

  lemma {:induction false} FailureStays(s: State, t: State)
    requires Inv(s) && Next(s, t) && s.sh.record.failed
    ensures t.sh.record.failed && !t.sh.bound
  {
    hide Move;
    var w :| Won(s, w);
    if h, step :| Takes(s, t, h, step) {
      SealedIsDone(s.sh, s.requests[w], step);
      BeforeGate(s.sh, s.requests[h], step);
    }
  }

  // ---- what stays mounted ---------------------------------------------------------------------------

  /** Once shutdown and every request have finished, a release was tried on whatever a
      claim mounted: by the claim, by shutdown, or by both. */
  lemma {:induction false} MountsReleased(run: seq<State>, i: nat)
    requires Run(run) && i < |run| && run[i].sh.shutdown == Stopped && (run[i].sh.mounts.Up? || run[i].sh.mounts.Down?)
    requires forall h <- run[i].requests :: run[i].requests[h].Answered?
    ensures run[i].sh.releasedByClaim || run[i].sh.releasedByShutdown
    ensures run[i].sh.mounts.Up? ==> run[i].sh.mounts.tries > 0
  {
    RunKeeps(run, i);
    var w :| Won(run[i], w);
  }

  /** A claim fails to mount everything and to unmount what it had. */
  ghost predicate RollbackFails(s: State, t: State) { exists h: Request :: Takes(s, t, h, MountFails(false)) }

  /** A claim or shutdown releases what was mounted, or fails to. */
  ghost predicate ReleaseTried(s: State, t: State, ok: bool) {
    (exists h: Request :: Takes(s, t, h, Undo(ok))) || (s.sh.shutdown == Releasing(true) && ShutsDown(s, t, ok))
  }

  /** Nothing is mounted any more. */
  predicate Gone(m: Mounts) { m.Nothing? || m.Down? }

  /** How the mounts may change; b says that a rollback failed. */
  predicate Changes(m: Mounts, n: Mounts, b: bool) {
    (n.Leaked? <==> m.Leaked? || b) && (m.Leaked? || Gone(m) ==> n == m)
    && (m.Up? ==> n == m || n == Up(m.tries + 1) || n == Down) && (n.Up? && !m.Up? ==> n.tries == 0)
  }

  lemma {:induction false} MoveChanges(sh: Shared, pc: Pc, step: Step)
    requires Move(sh, pc, step).Some? && (WinnerOk(sh, pc) || !Past(pc))
    ensures var to := Move(sh, pc, step).value.0; Changes(sh.mounts, to.mounts, step == MountFails(false))
    ensures var to := Move(sh, pc, step).value.0; sh.mounts.Up? && to.mounts != sh.mounts ==> step == Undo(to.mounts == Down)
    ensures step.Undo? ==> if step.ok then Gone(Move(sh, pc, step).value.0.mounts) else sh.mounts.Up? && Move(sh, pc, step).value.0.mounts.Up?
  {
  }

  lemma {:induction false} ReleasedChanges(m: Mounts, ok: bool)
    requires ok || m.Up?
    ensures Changes(m, Released(m, ok), false)
    ensures m.Up? ==> ok == (Released(m, ok) == Down)
    ensures if ok then !Released(m, ok).Up? else m.Up? && Released(m, ok).Up?
  {
  }

  lemma {:induction false} ShutdownChanges(sh: Shared, ok: bool)
    requires ShutDown(sh, ok).Some?
    ensures var to := ShutDown(sh, ok).value;
      if sh.shutdown == Releasing(true) then (ok || sh.mounts.Up?) && to.mounts == Released(sh.mounts, ok) else to.mounts == sh.mounts
  {
    hide Released;
  }

  lemma {:induction false} Mover(s: State, h: Request)
    requires Inv(s) && h in s.requests
    ensures WinnerOk(s.sh, s.requests[h]) || !Past(s.requests[h])
  {
    if Past(s.requests[h]) { var w :| Won(s, w); }
  }

  lemma {:induction false} TakesChanges(s: State, t: State, h: Request, step: Step)
    requires Inv(s) && Takes(s, t, h, step)
    ensures Changes(s.sh.mounts, t.sh.mounts, step == MountFails(false))
    ensures s.sh.mounts.Up? && t.sh.mounts != s.sh.mounts ==> step == Undo(t.sh.mounts == Down)
    ensures step.Undo? ==> if step.ok then Gone(t.sh.mounts) else s.sh.mounts.Up? && t.sh.mounts.Up?
  {
    hide Inv, Move, WinnerOk, Changes;
    Mover(s, h);
    MoveChanges(s.sh, s.requests[h], step);
  }

  /** Every step changes the mounts in one of the ways listed. */
  lemma {:induction false} NextChanges(s: State, t: State)
    requires Inv(s) && Next(s, t)
    ensures Changes(s.sh.mounts, t.sh.mounts, RollbackFails(s, t))
    ensures s.sh.mounts.Up? && t.sh.mounts != s.sh.mounts ==> ReleaseTried(s, t, t.sh.mounts == Down)
  {
    hide Inv, Takes, ShutDown, Changes;
    if h: Request :| Takes(s, t, h, MountFails(false)) {
      TakesChanges(s, t, h, MountFails(false));
    } else if h, step :| Takes(s, t, h, step) {
      TakesChanges(s, t, h, step);
    } else {
      SameMounts(s.sh.mounts);
      if ok :| ShutsDown(s, t, ok) {
        ShutdownChanges(s.sh, ok);
        if s.sh.shutdown == Releasing(true) { ReleasedChanges(s.sh.mounts, ok); }
      }
    }
  }

  lemma {:induction false} SameMounts(m: Mounts)
    ensures Changes(m, m, false)
  {
  }

  /** A release that succeeds leaves nothing; one that fails leaves what was there. */
  lemma {:induction false} TriedMeans(s: State, t: State, ok: bool)
    requires Inv(s) && ReleaseTried(s, t, ok)
    ensures if ok then Gone(t.sh.mounts) else s.sh.mounts.Up? && t.sh.mounts.Up?
  {
    hide Takes, ShutDown;
    if h: Request :| Takes(s, t, h, Undo(ok)) {
      hide Inv;
      TakesChanges(s, t, h, Undo(ok));
    } else {
      ShutdownChanges(s.sh, ok);
      ReleasedChanges(s.sh.mounts, ok);
      var w :| Won(s, w);
    }
  }

  ghost predicate RollbackFailsAt(run: seq<State>, j: nat) { j + 1 < |run| && RollbackFails(run[j], run[j + 1]) }

  ghost predicate TriedAt(run: seq<State>, j: nat, ok: bool) { j + 1 < |run| && ReleaseTried(run[j], run[j + 1], ok) }

  lemma {:induction false} ChangesAt(run: seq<State>, j: nat)
    requires Run(run) && j + 1 < |run|
    ensures Changes(run[j].sh.mounts, run[j + 1].sh.mounts, RollbackFailsAt(run, j))
    ensures run[j].sh.mounts.Up? && run[j + 1].sh.mounts != run[j].sh.mounts ==> TriedAt(run, j, run[j + 1].sh.mounts == Down)
  {
    hide Inv, Next, RollbackFails, ReleaseTried, Changes;
    RunKeeps(run, j);
    assert Linked(run, j);
    NextChanges(run[j], run[j + 1]);
  }

  lemma {:induction false} TriedMeansAt(run: seq<State>, j: nat, ok: bool)
    requires Run(run) && TriedAt(run, j, ok)
    ensures if ok then Gone(run[j + 1].sh.mounts) else run[j].sh.mounts.Up? && run[j + 1].sh.mounts.Up?
  {
    hide Inv, Next, ReleaseTried;
    RunKeeps(run, j);
    TriedMeans(run[j], run[j + 1], ok);
  }

  lemma {:induction false} LeakedExactly(run: seq<State>, i: nat)
    requires Run(run) && i < |run|
    ensures run[i].sh.mounts.Leaked? <==> exists j: nat :: j < i && RollbackFailsAt(run, j)
    decreases i
  {
    hide Next, RollbackFailsAt;
    if i > 0 {
      LeakedExactly(run, i - 1);
      ChangesAt(run, i - 1);
    }
  }

  /** What is gone stays gone. */
  lemma {:induction false} GoneStays(run: seq<State>, j: nat, i: nat)
    requires Run(run) && j <= i < |run| && Gone(run[j].sh.mounts)
    ensures Gone(run[i].sh.mounts)
    decreases i
  {
    hide Next, RollbackFailsAt, TriedAt;
    if j < i {
      GoneStays(run, j, i - 1);
      ChangesAt(run, i - 1);
    }
  }

  /** What is mounted stays mounted unless a release succeeds. */
  lemma {:induction false} UpStays(run: seq<State>, j: nat, i: nat)
    requires Run(run) && j <= i < |run| && run[j].sh.mounts.Up?
    ensures run[i].sh.mounts.Up? || exists k: nat :: k < i && TriedAt(run, k, true)
    decreases i
  {
    hide Next, RollbackFailsAt, TriedAt;
    if j < i {
      UpStays(run, j, i - 1);
      ChangesAt(run, i - 1);
      if run[i - 1].sh.mounts.Up? && run[i].sh.mounts == Down { assert TriedAt(run, i - 1, true); }
    }
  }

  /** A counted failure happened. */
  lemma {:induction false} FailureHappened(run: seq<State>, i: nat)
    requires Run(run) && i < |run| && run[i].sh.mounts.Up? && run[i].sh.mounts.tries > 0
    ensures exists k: nat :: k < i && TriedAt(run, k, false)
    decreases i
  {
    hide Next, RollbackFailsAt, TriedAt;
    if i > 0 {
      ChangesAt(run, i - 1);
      if run[i - 1].sh.mounts == run[i].sh.mounts { FailureHappened(run, i - 1); } else { assert TriedAt(run, i - 1, false); }
    }
  }

  /** Once shutdown and every request have finished, something is left mounted if and only
      if a claim's rollback failed, or a release failed and none succeeded. */
  lemma {:induction false} LeftMounted(run: seq<State>, i: nat)
    requires Run(run) && i < |run| && run[i].sh.shutdown == Stopped
    requires forall h <- run[i].requests :: run[i].requests[h].Answered?
    ensures run[i].sh.mounts.Left() <==>
      (exists j: nat :: j < i && RollbackFailsAt(run, j))
      || ((exists j: nat :: j < i && TriedAt(run, j, false)) && !exists j: nat :: j < i && TriedAt(run, j, true))
  {
    hide Run, RollbackFailsAt, TriedAt;
    LeakedExactly(run, i);
    var m := run[i].sh.mounts;
    if m.Up? {
      MountsReleased(run, i);
      FailureHappened(run, i);
      if j: nat :| j < i && TriedAt(run, j, true) {
        TriedMeansAt(run, j, true);
        GoneStays(run, j + 1, i);
      }
    }
    if j: nat :| j < i && TriedAt(run, j, false) {
      TriedMeansAt(run, j, false);
      UpStays(run, j + 1, i);
    }
  }

  /** What a failed rollback leaves mounted stays so: no runner was kept for it. */
  lemma {:induction false} LeakStays(run: seq<State>, i: nat)
    requires Run(run) && i < |run| && run[i].sh.mounts.Leaked?
    ensures !run[i].sh.releasedByClaim && !run[i].sh.releasedByShutdown && !run[i].sh.bound
  {
    RunKeeps(run, i);
    var w :| Won(run[i], w);
  }

  // ---- runs in which something stays mounted --------------------------------------------------------

  lemma {:induction false} Goes(run: seq<State>, step: Step) returns (more: seq<State>)
    requires Run(run) && var s := run[|run| - 1]; 0 in s.requests && Move(s.sh, s.requests[0], step).Some?
    ensures Run(more) && |more| == |run| + 1
    ensures var s := run[|run| - 1]; var r := Move(s.sh, s.requests[0], step).value;
      more[|run|] == State(s.requests[0 := r.1], r.0)
  {
    hide Move;
    var s := run[|run| - 1];
    var r := Move(s.sh, s.requests[0], step).value;
    var t := State(s.requests[0 := r.1], r.0);
    more := run + [t];
    assert Takes(s, t, 0, step);
    Longer(run, t);
  }

  lemma {:induction false} Longer(run: seq<State>, t: State)
    requires Run(run) && Next(run[|run| - 1], t)
    ensures Run(run + [t])
  {
    hide Next;
    var more := run + [t];
    forall i | 0 <= i < |more| - 1 ensures Linked(more, i) {
      if i < |run| - 1 { assert Linked(run, i); }
    }
  }

  lemma {:induction false} Closes(run: seq<State>, ok: bool) returns (more: seq<State>)
    requires Run(run) && ShutDown(run[|run| - 1].sh, ok).Some?
    ensures Run(more) && |more| == |run| + 1 && more[|run|] == run[|run| - 1].(sh := ShutDown(run[|run| - 1].sh, ok).value)
  {
    hide ShutDown;
    var s := run[|run| - 1];
    var t := s.(sh := ShutDown(s.sh, ok).value);
    assert ShutsDown(s, t, ok);
    Longer(run, t);
    more := run + [t];
  }

  /** One request gets as far as mounting. */
  lemma {:induction false} ToMounting() returns (run: seq<State>)
    ensures Run(run)
    ensures run[|run| - 1] == State(map[0 := Mounting], INITIAL.sh.(claimed := true, record := Record(true, false)))
  {
    hide Run;
    run := Begins();
    run := Goes(run, Auth(true));
    run := Goes(run, SeeClosing);
    run := Goes(run, Gate);
    run := Goes(run, Decode(true));
    run := Goes(run, Prepare(true));
  }

  lemma {:induction false} Begins() returns (run: seq<State>)
    ensures Run(run) && |run| == 2 && run[1] == State(map[0 := Arrived], INITIAL.sh)
  {
    var t := State(map[0 := Arrived], INITIAL.sh);
    var h: Request := 0;
    assert h !in INITIAL.requests && t == INITIAL.(requests := INITIAL.requests[h := Arrived]);
    assert Arrives(INITIAL, t);
    hide Arrives;
    Longer([INITIAL], t);
    run := [INITIAL] + [t];
  }

  /** Everything has finished, something is mounted, and the request was answered so. */
  ghost predicate EndsMounted(run: seq<State>, answer: nat) {
    Run(run)
    && var s := run[|run| - 1];
    s.sh.shutdown == Stopped && s.requests == map[0 := Answered(answer)] && s.sh.mounts.Left()
  }

  /** A failed rollback is left mounted. */
  lemma {:induction false} RollbackLeaks() returns (run: seq<State>)
    ensures EndsMounted(run, 422) && run[|run| - 1].sh.mounts == Leaked
  {
    hide Run;
    run := ToMounting();
    run := Goes(run, MountFails(false));
    run := Goes(run, PublishFailure);
    run := Closes(run, true);
    run := Closes(run, true);
    run := Closes(run, true);
    run := Closes(run, true);
  }

  /** One request mounts something, and a runner is kept for it. */
  lemma {:induction false} ToChecking() returns (run: seq<State>)
    ensures Run(run)
    ensures run[|run| - 1] == State(map[0 := Checking], Shared(true, Record(true, false), Running, true, false, false, Up(0), false, false))
  {
    hide Run;
    run := ToMounting();
    run := Goes(run, MountOk(true));
    run := Goes(run, Store);
  }

  /** And then succeeds. */
  lemma {:induction false} ToAnswered() returns (run: seq<State>)
    ensures Run(run)
    ensures run[|run| - 1] == State(map[0 := Answered(200)],
              Shared(true, Record(true, false), Running, true, true, true, Up(0), false, false))
  {
    hide Run;
    run := ToChecking();
    run := Goes(run, Check);
    run := Goes(run, Signal(true));
    run := Goes(run, Arm);
    run := Goes(run, Answer);
  }

  /** So is what a successful claim mounted when shutdown's release fails. */
  lemma {:induction false} ReleaseLeaks() returns (run: seq<State>)
    ensures EndsMounted(run, 200) && run[|run| - 1].sh.mounts == Up(1)
  {
    hide Run;
    run := ToAnswered();
    run := Closes(run, true);
    run := Closes(run, true);
    run := Closes(run, true);
    run := Closes(run, false);
  }

  // ---- claims after shutdown began --------------------------------------------------------------------

  /** A request that has not looked at the closing flag, or was turned away. */
  predicate Outside(pc: Pc) { pc == Arrived || pc == AtClosing || pc == Answered(401) || pc == Answered(409) }

  lemma {:induction false} ClosingMoves(sh: Shared, pc: Pc, step: Step)
    requires Move(sh, pc, step).Some? && sh.IsClosing()
    ensures var (to, at) := Move(sh, pc, step).value;
      to.IsClosing() && (Outside(pc) ==> Outside(at)) && at != AtGate && (pc != AtGate ==> to.claimed == sh.claimed)
  {
  }

  lemma {:induction false} ClosingSteps(s: State, t: State, h: Request)
    requires Next(s, t) && s.sh.IsClosing() && (h in s.requests ==> Outside(s.requests[h]))
    ensures t.sh.IsClosing() && (h in t.requests ==> Outside(t.requests[h]))
  {
    hide Move;
    if k, step :| Takes(s, t, k, step) { ClosingMoves(s.sh, s.requests[k], step); }
  }

  /** A request that has not looked at the flag when shutdown begins is never let through
      the gate. */
  lemma {:induction false} ClosingRefuses(run: seq<State>, i: nat, j: nat, h: Request)
    requires Run(run) && i <= j < |run| && run[i].sh.IsClosing() && (h in run[i].requests ==> Outside(run[i].requests[h]))
    ensures run[j].sh.IsClosing() && (h in run[j].requests ==> Outside(run[j].requests[h]) && !Past(run[j].requests[h]))
    decreases j
  {
    hide Next;
    if i < j {
      ClosingRefuses(run, i, j - 1, h);
      assert Linked(run, j - 1);
      ClosingSteps(run[j - 1], run[j], h);
    }
  }

  /** Nobody claimed the pod and nobody is at its gate. */
  ghost predicate Idle(s: State) { s.sh.IsClosing() && !s.sh.claimed && forall h <- s.requests :: s.requests[h] != AtGate }

  lemma {:induction false} IdleSteps(s: State, t: State)
    requires Next(s, t) && Idle(s)
    ensures Idle(t)
  {
    hide Move;
    if k, step :| Takes(s, t, k, step) { ClosingMoves(s.sh, s.requests[k], step); }
  }

  /** A pod that is idle when shutdown begins is never claimed and never mounts anything. */
  lemma {:induction false} IdleStays(run: seq<State>, i: nat, j: nat)
    requires Run(run) && i <= j < |run| && Idle(run[i])
    ensures Idle(run[j]) && run[j].sh.mounts == NotYet && !run[j].sh.bound
    decreases j
  {
    hide Next, Idle;
    if i < j {
      IdleStays(run, i, j - 1);
      assert Linked(run, j - 1);
      IdleSteps(run[j - 1], run[j]);
    }
    RunKeeps(run, j);
    IdleIsUnclaimed(run[j]);
  }

  lemma {:induction false} IdleIsUnclaimed(s: State)
    requires Inv(s) && Idle(s)
    ensures s.sh.mounts == NotYet && !s.sh.bound
  {
    NobodyYet(s);
  }

  // ---- why a request was turned down ---------------------------------------------------------------

  ghost predicate Did(run: seq<State>, j: nat, h: Request, step: Step)
    requires j + 1 < |run|
  {
    Takes(run[j], run[j + 1], h, step)
  }

  /** The step makes its claim fail after the pod was claimed. */
  predicate Breaks(step: Step) { step == Prepare(false) || step.MountFails? || step.Undo? || step == Signal(false) }

  /** Something broke claim h in the first i steps. */
  ghost predicate Broke(run: seq<State>, i: nat, h: Request)
    requires i < |run|
  {
    exists j: nat, step: Step :: j < i && Breaks(step) && Did(run, j, h, step)
  }

  /** What a request's position says has happened to it. */
  ghost predicate Reason(run: seq<State>, i: nat, h: Request, pc: Pc)
    requires i < |run|
  {
    match pc
    case Failing => Broke(run, i, h)
    case Undoing => run[i].sh.IsClosing()
    case Answered(status) =>
      (status == 200 || status == 400 || status == 401 || status == 409 || status == 422)
      && (status == 401 ==> exists j: nat :: j < i && Did(run, j, h, Auth(false)))
      && (status == 400 ==> exists j: nat :: j < i && Did(run, j, h, Decode(false)))
      && (status == 409 ==> run[i].sh.claimed || run[i].sh.IsClosing()) && (status == 422 ==> Broke(run, i, h))
    case _ => true
  }

  lemma {:induction false} MoveKeepsFlags(sh: Shared, pc: Pc, step: Step)
    requires Move(sh, pc, step).Some?
    ensures var to := Move(sh, pc, step).value.0; (sh.claimed ==> to.claimed) && to.shutdown == sh.shutdown
  {
  }

  lemma {:induction false} ShutDownKeepsFlags(sh: Shared, ok: bool)
    requires ShutDown(sh, ok).Some?
    ensures var to := ShutDown(sh, ok).value; to.claimed == sh.claimed && to.IsClosing()
  {
  }

  /** A claimed or closing pod stays so. */
  lemma {:induction false} FlagsStay(s: State, t: State)
    requires Next(s, t)
    ensures (s.sh.claimed ==> t.sh.claimed) && (s.sh.IsClosing() ==> t.sh.IsClosing())
  {
    hide Move, ShutDown;
    if ok: bool :| ShutsDown(s, t, ok) {
      ShutDownKeepsFlags(s.sh, ok);
    } else if h: Request, step: Step :| Takes(s, t, h, step) {
      MoveKeepsFlags(s.sh, s.requests[h], step);
    }
  }

  lemma {:induction false} ReasonStays(run: seq<State>, i: nat, h: Request, pc: Pc)
    requires i + 1 < |run| && Reason(run, i, h, pc) && Next(run[i], run[i + 1])
    ensures Reason(run, i + 1, h, pc)
  {
    hide Did, Next;
    FlagsStay(run[i], run[i + 1]);
  }

  lemma {:induction false} NoReason(run: seq<State>, i: nat, h: Request)
    requires i < |run|
    ensures Reason(run, i, h, Arrived)
  {
  }

  lemma {:induction false} ReasonMoves(run: seq<State>, i: nat, h: Request, step: Step)
    requires i + 1 < |run| && Did(run, i, h, step) && Reason(run, i, h, run[i].requests[h])
    ensures Reason(run, i + 1, h, run[i + 1].requests[h])
  {
    assert Next(run[i], run[i + 1]);
    FlagsStay(run[i], run[i + 1]);
    if Breaks(step) { assert Broke(run, i + 1, h); }
    if run[i].requests[h] == Failing { ReasonStays(run, i, h, Failing); }
  }

  /** A request was turned down for a reason: 401 for its credentials, 409 because the pod
      is claimed or closing, 400 for its body, and 422 because preparing, mounting or
      signalling failed or shutdown made it undo its mounts. */
  lemma {:induction false} AnsweredFor(run: seq<State>, i: nat, h: Request)
    requires Run(run) && i < |run| && h in run[i].requests
    ensures Reason(run, i, h, run[i].requests[h])
    decreases i
  {
    hide Reason, Move;
    if i > 0 {
      var s, t := run[i - 1], run[i];
      assert Linked(run, i - 1);
      if h !in s.requests {
        assert t.requests[h] == Arrived;
        NoReason(run, i, h);
      } else {
        AnsweredFor(run, i - 1, h);
        if t.requests[h] == s.requests[h] {
          ReasonStays(run, i - 1, h, s.requests[h]);
        } else {
          var step :| Takes(s, t, h, step);
          ReasonMoves(run, i - 1, h, step);
        }
      }
    }
  }
}
