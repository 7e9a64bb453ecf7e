/**
 Scheduling artifacts: which run after the workload, and in what order a phase runs
 them.
 */
module Artifacts {
  import opened Bytes

  const WORKLOAD := "workload"
  const JOB := "job"

  datatype Artifact = Artifact(id: string, depends: string)

  /** A dependency that names the post phase. */
  predicate PostPhase(depends: string) { depends == WORKLOAD || depends == JOB }

  function Ids(arts: seq<Artifact>): (r: set<string>) { set a | a in arts :: a.id }

  // ---- the two phases ---------------------------------------------------------------------

  /** The dependency chain of id reaches a sentinel within n links. */
  ghost predicate ReachesIn(arts: seq<Artifact>, id: string, n: nat)
    decreases n
  {
    exists a :: a in arts && a.id == id && (PostPhase(a.depends) || (n > 0 && ReachesIn(arts, a.depends, n - 1)))
  }

  ghost predicate Reaches(arts: seq<Artifact>, id: string) { exists n: nat :: ReachesIn(arts, id, n) }

  lemma {:induction false} ReachesNext(arts: seq<Artifact>, a: Artifact)
    requires a in arts && (PostPhase(a.depends) || Reaches(arts, a.depends))
    ensures Reaches(arts, a.id)
  {
    if PostPhase(a.depends) {
      assert ReachesIn(arts, a.id, 0);
    } else {
      var n: nat :| ReachesIn(arts, a.depends, n);
      assert ReachesIn(arts, a.id, n + 1);
    }
  }

  /** Closed under dependency and containing the direct ones, a set has all of them. */
  ghost predicate ClosedUnder(arts: seq<Artifact>, marked: set<string>) {
    forall a <- arts :: PostPhase(a.depends) || a.depends in marked ==> a.id in marked
  }

  lemma {:induction false} ClosedHasAll(arts: seq<Artifact>, marked: set<string>, id: string, n: nat)
    requires ClosedUnder(arts, marked) && ReachesIn(arts, id, n)
    ensures id in marked
    decreases n
  {
    var a :| a in arts && a.id == id && (PostPhase(a.depends) || (n > 0 && ReachesIn(arts, a.depends, n - 1)));
    if !PostPhase(a.depends) { ClosedHasAll(arts, marked, a.depends, n - 1); }
  }

  /** The artifacts of a phase, in their own order. */
  ghost function Phase(arts: seq<Artifact>, all: seq<Artifact>, post: bool): (r: seq<Artifact>) {
    if arts == [] then []
    else
      var last := arts[|arts| - 1];
      Phase(arts[..|arts| - 1], all, post) + if Reaches(all, last.id) == post then [last] else []
  }

  /** The phases split the artifacts: nothing is lost, doubled or put in both. */
  lemma {:induction false} PhasesSplit(arts: seq<Artifact>, all: seq<Artifact>)
    ensures multiset(Phase(arts, all, false)) + multiset(Phase(arts, all, true)) == multiset(arts)
    ensures forall a <- Phase(arts, all, true) :: Reaches(all, a.id)
    ensures forall a <- Phase(arts, all, false) :: !Reaches(all, a.id)
    decreases |arts|
  {
    if arts != [] {
      var front, last := arts[..|arts| - 1], arts[|arts| - 1];
      PhasesSplit(front, all);
      assert arts == front + [last];
    }
  }

  /** Marks the artifacts whose dependency chain reaches a sentinel. */
  method MarkPost(arts: seq<Artifact>) returns (marked: set<string>)
    ensures forall id :: id in marked <==> Reaches(arts, id)
  {
    hide Reaches, ReachesIn;
    marked := {};
    for i := 0 to |arts|
      invariant marked <= Ids(arts) && (forall id <- marked :: Reaches(arts, id))
      invariant forall k :: 0 <= k < i && PostPhase(arts[k].depends) ==> arts[k].id in marked
    {
      if PostPhase(arts[i].depends) {
        ReachesNext(arts, arts[i]);
        marked := marked + {arts[i].id};
      }
    }
    var changed := true;
    while changed
      invariant marked <= Ids(arts) && (forall id <- marked :: Reaches(arts, id))
      invariant forall a <- arts :: PostPhase(a.depends) ==> a.id in marked
      invariant !changed ==> ClosedUnder(arts, marked)
      decreases |Ids(arts) - marked|, changed
    {
      marked, changed := MarkPass(arts, marked);
    }
    forall id ensures id in marked <==> Reaches(arts, id) { MarkedIsAll(arts, marked, id); }
  }

  lemma {:induction false} MarkedIsAll(arts: seq<Artifact>, marked: set<string>, id: string)
    requires ClosedUnder(arts, marked) && forall k <- marked :: Reaches(arts, k)
    ensures id in marked <==> Reaches(arts, id)
  {
    if Reaches(arts, id) {
      var n: nat :| ReachesIn(arts, id, n);
      ClosedHasAll(arts, marked, id, n);
    }
  }

  /** One pass: marks what depends on something marked. */
  method MarkPass(arts: seq<Artifact>, before: set<string>) returns (marked: set<string>, changed: bool)
    requires before <= Ids(arts) && (forall id <- before :: Reaches(arts, id))
    requires forall a <- arts :: PostPhase(a.depends) ==> a.id in before
    ensures before <= marked <= Ids(arts) && forall id <- marked :: Reaches(arts, id)
    ensures changed <==> marked != before
    ensures !changed ==> ClosedUnder(arts, marked)
    ensures changed ==> |Ids(arts) - marked| < |Ids(arts) - before|
  {
    hide Reaches, ReachesIn;
    marked, changed := before, false;
    for i := 0 to |arts|
      invariant before <= marked <= Ids(arts) && (forall id <- marked :: Reaches(arts, id)) && (changed <==> marked != before)
      invariant !changed ==> forall k :: 0 <= k < i && arts[k].depends in marked ==> arts[k].id in marked
    {
      if arts[i].id !in marked && arts[i].depends in marked {
        ReachesNext(arts, arts[i]);
        marked, changed := marked + {arts[i].id}, true;
      }
    }
    if changed { Shrinks(Ids(arts), before, marked); }
  }

  lemma {:induction false} Shrinks(all: set<string>, before: set<string>, after: set<string>)
    requires before < after <= all
    ensures |all - after| < |all - before|
  {
    var x :| x in after && x !in before;
    SmallerSet(all - after, all - before);
  }

  lemma {:induction false} SmallerSet(a: set<string>, b: set<string>)
    requires a < b
    ensures |a| < |b|
    decreases |a|
  {
    var y :| y in b && y !in a;
    if a != {} {
      var x :| x in a;
      assert y in b - {x} && y !in a - {x};
      SmallerSet(a - {x}, b - {x});
    }
  }

  /** Splits artifacts into those before and those after the workload. */
  method Partition(arts: seq<Artifact>) returns (pre: seq<Artifact>, post: seq<Artifact>)
    ensures pre == Phase(arts, arts, false) && post == Phase(arts, arts, true)
  {
    var marked := MarkPost(arts);
    pre, post := [], [];
    for i := 0 to |arts|
      invariant pre == Phase(arts[..i], arts, false) && post == Phase(arts[..i], arts, true)
    {
      assert arts[..i + 1][..i] == arts[..i];
      if arts[i].id in marked { post := post + [arts[i]]; } else { pre := pre + [arts[i]]; }
    }
    assert arts[..|arts|] == arts;
  }

  // ---- running a phase --------------------------------------------------------------------

  /** A call of the apply function, and whether it failed. */
  datatype Call = Call(a: Artifact, failed: bool)

  ghost predicate Called(log: seq<Call>, id: string) { exists i :: 0 <= i < |log| && log[i].a.id == id }

  ghost predicate Succeeded(log: seq<Call>, id: string) { exists i :: 0 <= i < |log| && log[i].a.id == id && !log[i].failed }

  ghost predicate Distinct(arts: seq<Artifact>) { forall i, j :: 0 <= i < j < |arts| ==> arts[i].id != arts[j].id }

  /** Each call is of an artifact, no id is called twice, and a dependency in scope was
      called before and succeeded. */
  ghost predicate InOrder(arts: seq<Artifact>, log: seq<Call>) {
    (forall i :: 0 <= i < |log| ==> log[i].a in arts && (log[i].a.depends in Ids(arts) ==> Succeeded(log[..i], log[i].a.depends)))
    && forall i, j :: 0 <= i < j < |log| ==> log[i].a.id != log[j].a.id
  }

  /** An artifact is called whenever nothing it depends on is missing. */
  ghost predicate Complete(arts: seq<Artifact>, log: seq<Call>) {
    forall a <- arts :: a.depends !in Ids(arts) || Succeeded(log, a.depends) ==> Called(log, a.id)
  }

  /** What is settled is called or depends on a failure; what was called failed exactly
      if it is marked so. */
  ghost predicate Booked(arts: seq<Artifact>, completed: set<string>, failed: set<string>, log: seq<Call>) {
    failed <= completed <= Ids(arts)
    && (forall id <- completed :: Called(log, id) || (id in failed && DependsOnFailure(arts, failed, id)))
    && (forall i :: 0 <= i < |log| ==> log[i].a.id in completed && (log[i].failed <==> log[i].a.id in failed))
  }

  ghost predicate DependsOnFailure(arts: seq<Artifact>, failed: set<string>, id: string) {
    exists a :: a in arts && a.id == id && a.depends in failed
  }

  /** The last failing call. */
  function LastFailure(log: seq<Call>): (r: Option<Artifact>) {
    if log == [] then None
    else if log[|log| - 1].failed then Some(log[|log| - 1].a)
    else LastFailure(log[..|log| - 1])
  }

  lemma {:induction false} CalledGrows(log: seq<Call>, c: Call, id: string)
    ensures Called(log, id) ==> Called(log + [c], id)
    ensures Called(log + [c], c.a.id) && (!c.failed ==> Succeeded(log + [c], c.a.id))
  {
    assert (log + [c])[|log|] == c;
    if Called(log, id) {
      var i :| 0 <= i < |log| && log[i].a.id == id;
      assert (log + [c])[i].a.id == id;
    }
  }

  /** Skipping an artifact whose dependency failed. */
  lemma {:induction false} Skips(arts: seq<Artifact>, completed: set<string>, failed: set<string>, log: seq<Call>, a: Artifact)
    requires Booked(arts, completed, failed, log) && a in arts && a.id !in completed && a.depends in failed
    ensures Booked(arts, completed + {a.id}, failed + {a.id}, log)
  {
    var c, f := completed + {a.id}, failed + {a.id};
    forall id <- c ensures Called(log, id) || (id in f && DependsOnFailure(arts, f, id)) {
      if id == a.id {
        assert DependsOnFailure(arts, f, id);
      } else if !Called(log, id) {
        var b :| b in arts && b.id == id && b.depends in failed;
        assert DependsOnFailure(arts, f, id);
      }
    }
  }

  /** Calling an artifact that was not settled. */
  lemma {:induction false} Runs(arts: seq<Artifact>, completed: set<string>, failed: set<string>, log: seq<Call>, a: Artifact, err: bool)
    requires Booked(arts, completed, failed, log) && a in arts && a.id !in completed
    ensures Booked(arts, completed + {a.id}, if err then failed + {a.id} else failed, log + [Call(a, err)])
  {
    var c, f, more := completed + {a.id}, if err then failed + {a.id} else failed, log + [Call(a, err)];
    forall id <- c ensures Called(more, id) || (id in f && DependsOnFailure(arts, f, id)) {
      CalledGrows(log, Call(a, err), id);
      if id != a.id && !Called(log, id) {
        var b :| b in arts && b.id == id && b.depends in failed;
        assert DependsOnFailure(arts, f, id);
      }
    }
  }

  lemma {:induction false} RunsInOrder(arts: seq<Artifact>, completed: set<string>, failed: set<string>, log: seq<Call>, a: Artifact, err: bool)
    requires Booked(arts, completed, failed, log) && InOrder(arts, log) && a in arts && a.id !in completed
    requires a.depends in Ids(arts) ==> a.depends in completed && a.depends !in failed
    ensures InOrder(arts, log + [Call(a, err)])
  {
    var more := log + [Call(a, err)];
    assert more[..|log|] == log;
    if a.depends in Ids(arts) {
      var i :| 0 <= i < |log| && log[i].a.id == a.depends;
      assert Succeeded(log, a.depends);
    }
    forall i | 0 <= i < |log| ensures more[..i] == log[..i] { }
  }

  lemma {:induction false} NothingRun(arts: seq<Artifact>)
    ensures InOrder(arts, []) && Booked(arts, {}, {}, []) && LastFailure([]) == None
  {
  }

  /** Neither settled nor ready. */
  ghost predicate Blocked(arts: seq<Artifact>, completed: set<string>, a: Artifact) {
    a.id in completed || (a.depends in Ids(arts) && a.depends !in completed)
  }

  /** Everything a phase keeps while it runs. */
  ghost predicate Phased(arts: seq<Artifact>, oracle: nat -> bool, completed: set<string>, failed: set<string>,
                         lastErr: Option<Artifact>, log: seq<Call>) {
    InOrder(arts, log) && Booked(arts, completed, failed, log) && lastErr == LastFailure(log)
    && forall i :: 0 <= i < |log| ==> log[i].failed == oracle(i)
  }

  /** Considers one artifact: runs it, skips it, or leaves it for a later pass. */
  method RunOne(arts: seq<Artifact>, oracle: nat -> bool, inScope: set<string>, a: Artifact, completed0: set<string>,
                failed0: set<string>, lastErr0: Option<Artifact>, log0: seq<Call>)
    returns (completed: set<string>, failed: set<string>, lastErr: Option<Artifact>, log: seq<Call>)
    requires a in arts && inScope == Ids(arts) && Phased(arts, oracle, completed0, failed0, lastErr0, log0)
    ensures Phased(arts, oracle, completed, failed, lastErr, log) && completed0 <= completed <= Ids(arts)
    ensures completed == completed0 ==> failed == failed0 && log == log0 && lastErr == lastErr0 && Blocked(arts, completed, a)
  {
    hide InOrder, Booked;
    completed, failed, lastErr, log := completed0, failed0, lastErr0, log0;
    BookedIds(arts, completed, failed, log);
    if a.id in completed { return; }
    if a.depends in inScope && a.depends !in completed { return; }
    if a.depends in failed {
      Skips(arts, completed, failed, log, a);
      completed, failed := completed + {a.id}, failed + {a.id};
      return;
    }
    var err := oracle(|log|);
    Runs(arts, completed, failed, log, a, err);
    RunsInOrder(arts, completed, failed, log, a, err);
    assert (log + [Call(a, err)])[..|log|] == log;
    log := log + [Call(a, err)];
    if err {
      lastErr := Some(a);
      failed := failed + {a.id};
    }
    completed := completed + {a.id};
  }

  lemma {:induction false} BookedIds(arts: seq<Artifact>, completed: set<string>, failed: set<string>, log: seq<Call>)
    requires Booked(arts, completed, failed, log)
    ensures failed <= completed <= Ids(arts)
  {
  }

  /** One pass over all artifacts. */
  method RunPass(arts: seq<Artifact>, oracle: nat -> bool, inScope: set<string>, completed0: set<string>,
                 failed0: set<string>, lastErr0: Option<Artifact>, log0: seq<Call>)
    returns (completed: set<string>, failed: set<string>, lastErr: Option<Artifact>, log: seq<Call>, progress: bool)
    requires inScope == Ids(arts) && Phased(arts, oracle, completed0, failed0, lastErr0, log0)
    ensures Phased(arts, oracle, completed, failed, lastErr, log) && completed0 <= completed <= Ids(arts)
    ensures progress <==> completed != completed0
    ensures !progress ==> forall a <- arts :: Blocked(arts, completed, a)
  {
    hide Phased, Blocked;
    completed, failed, lastErr, log, progress := completed0, failed0, lastErr0, log0, false;
    PhasedIds(arts, oracle, completed, failed, lastErr, log);
    for i := 0 to |arts|
      invariant Phased(arts, oracle, completed, failed, lastErr, log) && completed0 <= completed <= Ids(arts)
      invariant progress <==> completed != completed0
      invariant !progress ==> forall k :: 0 <= k < i ==> Blocked(arts, completed, arts[k])
    {
      ghost var before := completed;
      var c, f, l, g := RunOne(arts, oracle, inScope, arts[i], completed, failed, lastErr, log);
      if c != completed { progress := true; }
      completed, failed, lastErr, log := c, f, l, g;
    }
  }

  lemma {:induction false} PhasedIds(arts: seq<Artifact>, oracle: nat -> bool, completed: set<string>, failed: set<string>,
                                     lastErr: Option<Artifact>, log: seq<Call>)
    requires Phased(arts, oracle, completed, failed, lastErr, log)
    ensures failed <= completed <= Ids(arts)
  {
  }

  lemma {:induction false} OnlyOne(arts: seq<Artifact>, a: Artifact, b: Artifact)
    requires Distinct(arts) && a in arts && b in arts && a.id == b.id
    ensures a == b
  {
  }

  /** When no artifact can move, every one that misses nothing was called. */
  lemma {:induction false} StuckIsComplete(arts: seq<Artifact>, completed: set<string>, failed: set<string>, log: seq<Call>)
    requires Distinct(arts) && Booked(arts, completed, failed, log) && forall a <- arts :: Blocked(arts, completed, a)
    ensures Complete(arts, log)
  {
    forall a <- arts | a.depends !in Ids(arts) || Succeeded(log, a.depends) ensures Called(log, a.id) {
      assert Blocked(arts, completed, a);
      assert a.depends !in failed;
      forall b | b in arts && b.id == a.id ensures b.depends !in failed { OnlyOne(arts, a, b); }
    }
  }

  lemma {:induction false} IdsAtMost(arts: seq<Artifact>)
    ensures |Ids(arts)| <= |arts|
    decreases |arts|
  {
    if arts != [] {
      var front, last := arts[..|arts| - 1], arts[|arts| - 1];
      IdsAtMost(front);
      assert arts == front + [last];
      assert Ids(arts) == Ids(front) + {last.id};
    }
  }

  /** When as many ids are settled as there are artifacts, none is left. */
  lemma {:induction false} DoneIsStuck(arts: seq<Artifact>, completed: set<string>)
    requires completed <= Ids(arts) && |completed| >= |arts|
    ensures forall a <- arts :: Blocked(arts, completed, a)
  {
    IdsAtMost(arts);
    if completed != Ids(arts) { SmallerSet(completed, Ids(arts)); }
  }

  /** Runs a phase: calls the apply function for each artifact whose dependencies within
      the phase have succeeded, after them.  The oracle says how the k-th call ends. */
  method RunInOrder(arts: seq<Artifact>, oracle: nat -> bool) returns (lastErr: Option<Artifact>, log: seq<Call>)
    ensures InOrder(arts, log) && lastErr == LastFailure(log)
    ensures forall i :: 0 <= i < |log| ==> log[i].failed == oracle(i)
    ensures Distinct(arts) ==> Complete(arts, log)
  {
    hide InOrder, Booked, Blocked, Complete, LastFailure, Distinct;
    var inScope := set a | a in arts :: a.id;
    var completed: set<string>, failed: set<string> := {}, {};
    lastErr, log := None, [];
    NothingRun(arts);
    while |completed| < |arts|
      invariant Phased(arts, oracle, completed, failed, lastErr, log)
      decreases |Ids(arts) - completed|
    {
      ghost var before := completed;
      var progress;
      completed, failed, lastErr, log, progress := RunPass(arts, oracle, inScope, completed, failed, lastErr, log);
      if !progress {
        if Distinct(arts) { StuckIsComplete(arts, completed, failed, log); }
        return;
      }
      Shrinks(Ids(arts), before, completed);
    }
    PhasedIds(arts, oracle, completed, failed, lastErr, log);
    DoneIsStuck(arts, completed);
    if Distinct(arts) { StuckIsComplete(arts, completed, failed, log); }
  }

  // ---- what was called ---------------------------------------------------------------------

  /** The in-scope ancestors of an artifact, at most n of them, end and all succeeded. */
  ghost predicate ClearedIn(arts: seq<Artifact>, log: seq<Call>, a: Artifact, n: nat)
    decreases n
  {
    a.depends !in Ids(arts)
    || (n > 0 && Succeeded(log, a.depends) && exists b :: b in arts && b.id == a.depends && ClearedIn(arts, log, b, n - 1))
  }

  /** Precisely the artifacts whose in-scope ancestor chain ends and all succeeded are
      called: a cycle, or a failure above, keeps an artifact from running. */
  lemma {:induction false} CalledExactly(arts: seq<Artifact>, log: seq<Call>, a: Artifact)
    requires Distinct(arts) && InOrder(arts, log) && Complete(arts, log) && a in arts
    ensures Called(log, a.id) <==> exists n: nat :: ClearedIn(arts, log, a, n)
  {
    if Called(log, a.id) {
      var i :| 0 <= i < |log| && log[i].a.id == a.id;
      CalledIsCleared(arts, log, i);
      OnlyOne(arts, a, log[i].a);
      assert ClearedIn(arts, log, a, i);
    }
  }

  lemma {:induction false} CalledIsCleared(arts: seq<Artifact>, log: seq<Call>, i: nat)
    requires Distinct(arts) && InOrder(arts, log) && i < |log|
    ensures ClearedIn(arts, log, log[i].a, i)
    decreases i
  {
    var a := log[i].a;
    if a.depends in Ids(arts) {
      assert Succeeded(log[..i], a.depends);
      var j :| 0 <= j < i && log[..i][j].a.id == a.depends && !log[..i][j].failed;
      assert log[j].a.id == a.depends && !log[j].failed;
      CalledIsCleared(arts, log, j);
      MoreLinks(arts, log, log[j].a, j, i - 1);
    }
  }

  lemma {:induction false} MoreLinks(arts: seq<Artifact>, log: seq<Call>, a: Artifact, m: nat, n: nat)
    requires ClearedIn(arts, log, a, m) && m <= n
    ensures ClearedIn(arts, log, a, n)
    decreases m
  {
    if a.depends in Ids(arts) {
      var b :| b in arts && b.id == a.depends && ClearedIn(arts, log, b, m - 1);
      MoreLinks(arts, log, b, m - 1, n - 1);
    }
  }
}
