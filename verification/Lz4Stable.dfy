/**
 What an encoder's chains held before a call does not matter.  Workers take encoders
 from a pool, so stale deltas differ from run to run; the greedy plan is the same for
 all of them, and so is the optimal plan of any source of up to 64 KiB.
 */
module Lz4Stable {
  import opened Bytes
  import opened Lz4Format
  import opened Lz4Emit
  import opened Lz4Finder
  import opened Lz4Pricing
  import opened Lz4Plan

  /** The link of p ends there, leads to a live position, or leads below low. */
  predicate Leads(chain: seq<uint16>, p: int, live: set<int>, low: int)
    requires 0 <= p < |chain|
  {
    chain[p] == 0 || p - chain[p] < low || p - chain[p] in live
  }

  /** Both have the same entry points, all live, and the same links from live positions. */
  ghost predicate Same(src: seq<byte>, k: Links, l: Links, live: set<int>, low: int) {
    k.For(src) && l.For(src) && k.head == l.head
    && (forall h :: 0 <= h < HASH_SIZE ==> k.head[h] == 0 || k.head[h] - 1 in live)
    && forall p <- live :: LinkSame(src, k, l, live, low, p)
  }

  ghost predicate LinkSame(src: seq<byte>, k: Links, l: Links, live: set<int>, low: int, p: int)
    requires k.For(src) && l.For(src)
  {
    0 <= p < |src| && p <= low + MAX_DISTANCE && k.chain[p] == l.chain[p] && Leads(k.chain, p, live, low)
  }

  lemma {:induction false} SameLater(src: seq<byte>, k: Links, l: Links, live: set<int>, low: int, later: int)
    requires Same(src, k, l, live, low) && low <= later
    ensures Same(src, k, l, live, later)
  {
    hide Links.For;
    forall p <- live ensures LinkSame(src, k, l, live, later, p) { assert LinkSame(src, k, l, live, low, p); }
  }

  /** A delta that wraps leads far below the newer position it came from. */
  lemma {:induction false} WrapsBelow(i: int, prev: int)
    requires i < prev
    ensures var d := (i - prev) % 65536; d == 0 || i - d <= prev - 65536
  {
  }

  lemma {:induction false} InsertedSame(src: seq<byte>, i: nat, k: Links, l: Links, live: set<int>, low: int)
    requires Same(src, k, l, live, low) && i + 4 <= |src| && i <= low + MAX_DISTANCE
    ensures Same(src, Inserted(src, i, k), Inserted(src, i, l), live + {i}, low)
  {
    hide Load32, Hash, Leads;
    var h := Hash(Load32(src, i));
    var prev := (k.head[h] as int) - 1;
    var k', l', more := Inserted(src, i, k), Inserted(src, i, l), live + {i};
    if prev >= 0 { assert LinkSame(src, k, l, live, low, prev); }
    forall p <- more ensures LinkSame(src, k', l', more, low, p) {
      if p == i {
        NewLeads(src, i, k, live, low, prev);
        if prev == i { assert LinkSame(src, k, l, live, low, i); LeadsMore(k.chain, i, live, low, more); }
      } else {
        assert LinkSame(src, k, l, live, low, p);
        LeadsMore(k.chain, p, live, low, more);
        LeadsKept(k.chain, k'.chain, p, more, low);
      }
    }
  }

  lemma {:induction false} LeadsMore(chain: seq<uint16>, p: int, live: set<int>, low: int, more: set<int>)
    requires 0 <= p < |chain| && Leads(chain, p, live, low) && live <= more
    ensures Leads(chain, p, more, low)
  {
  }

  lemma {:induction false} LeadsKept(chain: seq<uint16>, chain': seq<uint16>, p: int, live: set<int>, low: int)
    requires 0 <= p < |chain| && p < |chain'| && chain[p] == chain'[p] && Leads(chain, p, live, low)
    ensures Leads(chain', p, live, low)
  {
  }

  /** A new link leads to the newest position, or below low when that one is ahead. */
  lemma {:induction false} NewLeads(src: seq<byte>, i: nat, k: Links, live: set<int>, low: int, prev: int)
    requires k.For(src) && i + 4 <= |src| && prev == (k.head[Hash(Load32(src, i))] as int) - 1
    requires prev >= 0 ==> prev in live && prev <= low + MAX_DISTANCE
    ensures prev != i ==> Leads(Inserted(src, i, k).chain, i, live + {i}, low)
  {
    hide Load32, Hash;
    if i < prev { WrapsBelow(i, prev); }
  }

  lemma {:induction false} InsertedAllSame(src: seq<byte>, from: nat, to: nat, k: Links, l: Links, live: set<int>, low: int)
    returns (more: set<int>)
    requires Same(src, k, l, live, low) && to + MF_LIMIT <= |src| && to <= low + MAX_DISTANCE + 1
    ensures Same(src, InsertedAll(src, from, to, k), InsertedAll(src, from, to, l), more, low)
    decreases if from < to then to - from else 0
  {
    hide Same, Inserted;
    SameFor(src, k, l, live, low);
    more := live;
    if from < to {
      InsertedSame(src, from, k, l, live, low);
      more := InsertedAllSame(src, from + 1, to, Inserted(src, from, k), Inserted(src, from, l), live + {from as int}, low);
    }
  }

  lemma {:induction false} SameFor(src: seq<byte>, k: Links, l: Links, live: set<int>, low: int)
    requires Same(src, k, l, live, low)
    ensures k.For(src) && l.For(src)
  {
  }

  // ---- searching ------------------------------------------------------------------

  /** A candidate both chains treat alike: live, or out of reach. */
  predicate Safe(live: set<int>, low: int, cand: int) { cand < 0 || cand < low || cand in live }

  lemma {:induction false} NextSafe(src: seq<byte>, k: Links, l: Links, live: set<int>, low: int, cand: int)
    requires Same(src, k, l, live, low) && cand in live
    ensures 0 <= cand < |src| && cand < |k.chain| && cand < |l.chain| && k.chain[cand] == l.chain[cand]
    ensures k.chain[cand] != 0 ==> Safe(live, low, cand - k.chain[cand])
  {
    assert LinkSame(src, k, l, live, low, cand);
  }

  lemma {:induction false} NewestSame(src: seq<byte>, k: Links, l: Links, live: set<int>, low: int, cand: int, i: nat)
    requires Same(src, k, l, live, low) && low <= i && Safe(live, low, cand) && cand < |src|
    ensures k.For(src) && l.For(src) && NewestBefore(k.chain, cand, i) == NewestBefore(l.chain, cand, i)
    ensures Safe(live, low, NewestBefore(k.chain, cand, i))
    decreases cand
  {
    hide Same, Links.For;
    SameFor(src, k, l, live, low);
    ChainSizes(src, k);
    ChainSizes(src, l);
    if cand >= i {
      NextSafe(src, k, l, live, low, cand);
      if k.chain[cand] != 0 { NewestSame(src, k, l, live, low, cand - k.chain[cand], i); }
    }
  }

  lemma {:induction false} ChainSizes(src: seq<byte>, k: Links)
    requires k.For(src)
    ensures |src| <= |k.chain| && |k.head| == HASH_SIZE
  {
  }

  lemma {:induction false} CandidateSame(src: seq<byte>, k: Links, l: Links, live: set<int>, low: int, i: nat)
    requires Same(src, k, l, live, low) && low <= i && i + 4 <= |src|
    ensures k.For(src) && l.For(src) && FirstCandidate(src, k, i) == FirstCandidate(src, l, i)
    ensures Safe(live, low, FirstCandidate(src, k, i))
  {
    hide Load32, Hash, LinkSame;
    NewestSame(src, k, l, live, low, (k.head[Hash(Load32(src, i))] as int) - 1, i);
  }

  /** Whatever a search can reach is live. */
  predicate InReach(low: int, i: nat) { low <= 0 || low <= i - MAX_DISTANCE }

  lemma {:induction false} WidenSame(src: seq<byte>, k: Links, l: Links, live: set<int>, low: int, i: nat, minStart: nat,
                                     cand: int, attempts: nat, m: Match)
    requires Same(src, k, l, live, low) && InReach(low, i) && Safe(live, low, cand)
    requires cand < i && minStart <= i && i + MF_LIMIT < |src| && Around(src, i, minStart, m)
    ensures |src| <= |k.chain| && |src| <= |l.chain|
    ensures WidenFrom(src, k.chain, i, minStart, cand, attempts, m) == WidenFrom(src, l.chain, i, minStart, cand, attempts, m)
    decreases attempts
  {
    hide Same, Tried, MatchAt;
    SameFor(src, k, l, live, low);
    if attempts > 0 && cand >= 0 && cand >= i - MAX_DISTANCE {
      NextSafe(src, k, l, live, low, cand);
      TriedAround(src, i, minStart, cand, m);
      var t := Tried(src, i, minStart, cand, m);
      if k.chain[cand] != 0 { WidenSame(src, k, l, live, low, i, minStart, cand - k.chain[cand], attempts - 1, t); }
    }
  }

  lemma {:induction false} WiderSame(src: seq<byte>, k: Links, l: Links, live: set<int>, low: int, i: nat, minStart: nat)
    requires Same(src, k, l, live, low) && InReach(low, i) && minStart <= i && i + MF_LIMIT < |src|
    ensures k.For(src) && l.For(src) && Wider(src, k, i, minStart) == Wider(src, l, i, minStart)
  {
    hide Same, WidenFrom, FirstCandidate;
    CandidateSame(src, k, l, live, low, i);
    WidenSame(src, k, l, live, low, i, minStart, FirstCandidate(src, k, i), ATTEMPTS, NO_MATCH);
  }

  lemma {:induction false} LengthenSame(src: seq<byte>, k: Links, l: Links, live: set<int>, low: int, i: nat,
                                        cand: int, attempts: nat, m: Match)
    requires Same(src, k, l, live, low) && InReach(low, i) && Safe(live, low, cand)
    requires cand < i && i + MF_LIMIT < |src| && RunAt(src, i, m)
    ensures |src| <= |k.chain| && |src| <= |l.chain|
    ensures LengthenFrom(src, k.chain, i, cand, attempts, m) == LengthenFrom(src, l.chain, i, cand, attempts, m)
    decreases attempts
  {
    hide Same, TriedAt, RunAt;
    SameFor(src, k, l, live, low);
    if attempts > 0 && cand >= 0 && cand >= i - MAX_DISTANCE {
      NextSafe(src, k, l, live, low, cand);
      TriedRun(src, i, cand, m);
      var t := TriedAt(src, i, cand, m);
      if k.chain[cand] != 0 { LengthenSame(src, k, l, live, low, i, cand - k.chain[cand], attempts - 1, t); }
    }
  }

  lemma {:induction false} LongestSame(src: seq<byte>, k: Links, l: Links, live: set<int>, low: int, i: nat)
    requires Same(src, k, l, live, low) && InReach(low, i) && i + MF_LIMIT < |src|
    ensures k.For(src) && l.For(src) && Longest(src, k, i) == Longest(src, l, i)
  {
    hide Same, LengthenFrom, FirstCandidate;
    CandidateSame(src, k, l, live, low, i);
    LengthenSame(src, k, l, live, low, i, FirstCandidate(src, k, i), ATTEMPTS, NO_MATCH);
  }

  // ---- the greedy plan ----------------------------------------------------------------

  /** Both picks differ in stale links alone. */
  ghost predicate SamePick(src: seq<byte>, y: Pick, z: Pick, live: set<int>, low: int) {
    Same(src, y.links, z.links, live, low) && y.plan == z.plan && y.m == z.m
  }

  /** Everything inserted lies at least two bytes before the end of the match. */
  function LowOf(m: Match): (low: int) { m.start + m.len - 2 - MAX_DISTANCE }

  /** Probing inserts the same positions and finds the same match. */
  lemma {:induction false} ProbeSame(src: seq<byte>, i: nat, k: Links, l: Links, live: set<int>, m: Match) returns (more: set<int>)
    requires Same(src, k, l, live, LowOf(m)) && m.len > 2 && m.start + m.len - 2 + MF_LIMIT < |src|
    ensures k.For(src) && l.For(src)
    ensures var a, b := Probed(src, i, k, m), Probed(src, i, l, m);
      Same(src, a, b, more, LowOf(m)) && Wider(src, a, m.start + m.len - 2, m.start) == Wider(src, b, m.start + m.len - 2, m.start)
  {
    hide Same, InsertedAll, Wider;
    SameFor(src, k, l, live, LowOf(m));
    var end := m.start + m.len;
    more := InsertedAllSame(src, Max(i + 1, end - 4), Min(end - 1, |src| - MF_LIMIT), k, l, live, LowOf(m));
    WiderSame(src, Probed(src, i, k, m), Probed(src, i, l, m), more, LowOf(m), end - 2, m.start);
  }

  lemma {:induction false} ResolvedSame(src: seq<byte>, i: nat, y: Pick, z: Pick, live: set<int>) returns (more: set<int>)
    requires y.For(src) && z.For(src) && SamePick(src, y, z, live, LowOf(z.m))
    ensures SamePick(src, Resolved(src, i, y), Resolved(src, i, z), more, LowOf(Resolved(src, i, z).m))
    decreases |src| - z.m.len
  {
    hide Same, Links.For, Repeats, Wider, Probed, Taken;
    more := live;
    var end := z.m.start + z.m.len;
    if z.m.len > 2 && end - 2 + MF_LIMIT < |src| {
      more := ProbeSame(src, i, y.links, z.links, live, z.m);
      var k, l := Probed(src, i, y.links, z.m), Probed(src, i, z.links, z.m);
      var m := Wider(src, l, end - 2, z.m.start);
      if m.len > z.m.len && m.start + m.len > end {
        SameLater(src, k, l, more, LowOf(z.m), LowOf(m));
        var plan := Shortened(src, z.plan, z.m, m);
        more := ResolvedSame(src, i, Pick(k, plan, m), Pick(l, plan, m), more);
      }
    }
  }

  lemma {:induction false} GreedySame(src: seq<byte>, k: Links, l: Links, live: set<int>, p: Plan, i: nat)
    requires Same(src, k, l, live, i - MAX_DISTANCE) && p.anchor <= i && MF_LIMIT <= |src|
    ensures k.For(src) && l.For(src) && GreedyFrom(src, k, p, i) == GreedyFrom(src, l, p, i)
    decreases |src| - i
  {
    hide Same, Links.For, Repeats, Wider, Inserted, Resolved, InsertedAll;
    SameFor(src, k, l, live, i - MAX_DISTANCE);
    if i + MF_LIMIT < |src| {
      WiderSame(src, k, l, live, i - MAX_DISTANCE, i, p.anchor);
      var m := Wider(src, k, i, p.anchor);
      if m.len == 0 {
        SameLater(src, k, l, live, i - MAX_DISTANCE, i + 1 - MAX_DISTANCE);
        if i + 1 + MF_LIMIT < |src| {
          InsertedSame(src, i + 1, k, l, live, i + 1 - MAX_DISTANCE);
          GreedySame(src, Inserted(src, i + 1, k), Inserted(src, i + 1, l), live + {i + 1}, p, i + 1);
        } else {
          GreedySame(src, k, l, live, p, i + 1);
        }
      } else {
        GreedyMatchSame(src, k, l, live, p, i);
      }
    }
  }

  lemma {:induction false} GreedyMatchSame(src: seq<byte>, k: Links, l: Links, live: set<int>, p: Plan, i: nat)
    requires Same(src, k, l, live, i - MAX_DISTANCE) && p.anchor <= i && i + MF_LIMIT < |src|
    requires k.For(src) && l.For(src) && Wider(src, k, i, p.anchor) == Wider(src, l, i, p.anchor) && Wider(src, k, i, p.anchor).len > 0
    ensures GreedyFrom(src, k, p, i) == GreedyFrom(src, l, p, i)
    decreases |src| - i, 0
  {
    hide Same, Links.For, Repeats, Wider, Inserted, Resolved, InsertedAll;
    var m := Wider(src, k, i, p.anchor);
    var y, z := Pick(k, p, m), Pick(l, p, m);
    SameLater(src, k, l, live, i - MAX_DISTANCE, LowOf(m));
    var more := ResolvedSame(src, i, y, z, live);
    var a, b := Resolved(src, i, y), Resolved(src, i, z);
    var next := b.m.start + b.m.len;
    SameLater(src, a.links, b.links, more, LowOf(b.m), next - MAX_DISTANCE);
    more := InsertedAllSame(src, Max(i + 1, next - MAX_DISTANCE), Min(next, |src| - MF_LIMIT), a.links, b.links, more, next - MAX_DISTANCE);
    GreedySame(src, GreedyLinks(src, i, a), GreedyLinks(src, i, b), more, Taken(src, b.plan, b.m), next);
  }

  lemma {:induction false} ClearedSame(src: seq<byte>, chain: seq<uint16>, other: seq<uint16>, low: int)
    ensures Same(src, Cleared(src, chain), Cleared(src, other), {}, low)
  {
  }

  /** Whatever the chains held before the call, the greedy plan is the same. */
  lemma {:induction false} GreedyPlanStable(src: seq<byte>, chain: seq<uint16>, other: seq<uint16>)
    ensures GreedyPlan(src, chain) == GreedyPlan(src, other)
  {
    hide Same, Inserted, GreedyFrom, Cleared, Links.For;
    if !Short(src) {
      var k, l := Cleared(src, chain), Cleared(src, other);
      ClearedSame(src, chain, other, -MAX_DISTANCE);
      InsertedSame(src, 0, k, l, {}, -MAX_DISTANCE);
      GreedySame(src, Inserted(src, 0, k), Inserted(src, 0, l), {} + {0}, START, 0);
    }
  }

  // ---- the optimal plan ---------------------------------------------------------------

  lemma {:induction false} RoundBatchSame(src: seq<byte>, ip: nat, k: Links, l: Links, live: set<int>, opt: seq<OptEntry>, cur: nat)
    returns (more: set<int>)
    requires Same(src, k, l, live, 0) && |src| <= MAX_DISTANCE + 1 && ip + MF_LIMIT < |src| && 0 < cur < |opt| <= OPT_WINDOW
    ensures k.For(src) && l.For(src)
    ensures var a, b := BatchRound(src, ip, k, opt, cur), BatchRound(src, ip, l, opt, cur);
      a.1 == b.1 && a.0.opt == b.0.opt && Same(src, a.0.links, b.0.links, more, 0)
  {
    hide Same, Links.For, Repeats, Wider, Inserted, Settled, OfferedAll;
    SameFor(src, k, l, live, 0);
    more := live;
    if cur < |opt| - 1 && ip + cur + MF_LIMIT < |src| {
      more := live + {ip + cur};
      InsertedSame(src, ip + cur, k, l, live, 0);
      WiderSame(src, Inserted(src, ip + cur, k), Inserted(src, ip + cur, l), more, 0, ip + cur, ip);
    }
  }

  lemma {:induction false} BatchSame(src: seq<byte>, ip: nat, k: Links, l: Links, live: set<int>, opt: seq<OptEntry>, cur: nat)
    returns (more: set<int>)
    requires Same(src, k, l, live, 0) && |src| <= MAX_DISTANCE + 1 && ip + MF_LIMIT < |src| && 0 < cur <= |opt| <= OPT_WINDOW
    ensures k.For(src) && l.For(src)
    ensures var a, b := BatchFrom(src, ip, k, opt, cur), BatchFrom(src, ip, l, opt, cur);
      a.opt == b.opt && Same(src, a.links, b.links, more, 0)
    decreases OPT_WINDOW - cur
  {
    hide Same, Links.For, BatchRound;
    SameFor(src, k, l, live, 0);
    more := live;
    if cur < |opt| {
      more := RoundBatchSame(src, ip, k, l, live, opt, cur);
      var a, b := BatchRound(src, ip, k, opt, cur), BatchRound(src, ip, l, opt, cur);
      if !a.1 { more := BatchSame(src, ip, a.0.links, b.0.links, more, a.0.opt, cur + 1); }
    }
  }

  lemma {:induction false} RoundSame(src: seq<byte>, k: Links, l: Links, live: set<int>, p: Plan, ip: nat) returns (more: set<int>)
    requires Same(src, k, l, live, 0) && |src| <= MAX_DISTANCE + 1 && p.anchor <= ip && ip + MF_LIMIT < |src|
    ensures k.For(src) && l.For(src)
    ensures var a, b := RoundAt(src, k, p, ip), RoundAt(src, l, p, ip);
      a.plan == b.plan && a.ip == b.ip && Same(src, a.links, b.links, more, 0)
  {
    hide Same, Links.For, Repeats, Longest, Inserted, InsertedAll, BatchFrom, Tiles, Path, Priced, LastEnd, TakenPath, Taken;
    SameFor(src, k, l, live, 0);
    LongestSame(src, k, l, live, 0, ip);
    more := live;
    var m := Longest(src, k, ip);
    if m.len == 0 {
      if ip + 1 + MF_LIMIT < |src| {
        InsertedSame(src, ip + 1, k, l, live, 0);
        more := live + {ip + 1};
      }
    } else if m.len >= SUFFICIENT_LEN {
      more := AdvancedSame(src, ip, m.len, k, l, live);
    } else {
      BatchFacts(src, k, m);
      BatchFacts(src, l, m);
      more := BatchSame(src, m.start, k, l, live, Seeded(m.start - m.ref, m.len), 1);
      more := AdvancedSame(src, ip, Max(BatchEnd(src, k, m), 1), BatchAt(src, k, m).links, BatchAt(src, l, m).links, more);
    }
  }

  lemma {:induction false} AdvancedSame(src: seq<byte>, ip: nat, consumed: nat, k: Links, l: Links, live: set<int>) returns (more: set<int>)
    requires Same(src, k, l, live, 0) && MF_LIMIT <= |src| <= MAX_DISTANCE + 1
    ensures k.For(src) && l.For(src) && Same(src, Advanced(src, ip, consumed, k), Advanced(src, ip, consumed, l), more, 0)
  {
    hide Same, InsertedAll;
    SameFor(src, k, l, live, 0);
    more := InsertedAllSame(src, Max(ip + 1, ip + consumed - MAX_DISTANCE), Min(ip + consumed, |src| - MF_LIMIT), k, l, live, 0);
  }

  lemma {:induction false} OptSame(src: seq<byte>, k: Links, l: Links, live: set<int>, p: Plan, ip: nat)
    requires Same(src, k, l, live, 0) && p.anchor <= ip && MF_LIMIT <= |src| <= MAX_DISTANCE + 1
    ensures k.For(src) && l.For(src) && OptFrom(src, k, p, ip) == OptFrom(src, l, p, ip)
    decreases |src| - ip
  {
    hide Same, Links.For, RoundAt;
    SameFor(src, k, l, live, 0);
    if ip + MF_LIMIT < |src| {
      var more := RoundSame(src, k, l, live, p, ip);
      var a, b := RoundAt(src, k, p, ip), RoundAt(src, l, p, ip);
      OptSame(src, a.links, b.links, more, a.plan, a.ip);
    }
  }

  /** Up to 64 KiB no wrapped link leads into the source, so the optimal plan is the same
      whatever the chains held. */
  lemma {:induction false} OptPlanStable(src: seq<byte>, chain: seq<uint16>, other: seq<uint16>)
    requires |src| <= MAX_DISTANCE + 1
    ensures OptPlan(src, chain) == OptPlan(src, other)
  {
    hide Same, Inserted, OptFrom, Cleared, Links.For;
    if !Short(src) {
      var k, l := Cleared(src, chain), Cleared(src, other);
      ClearedSame(src, chain, other, 0);
      InsertedSame(src, 0, k, l, {}, 0);
      OptSame(src, Inserted(src, 0, k), Inserted(src, 0, l), {} + {0}, START, 0);
    }
  }

  // ---- beyond 64 KiB ------------------------------------------------------------------

  /** A position indexed after a newer one gets a link that leads 64 KiB below that one,
      whatever is there. */
  lemma {:induction false} WrapLeads(src: seq<byte>, i: nat, k: Links, prev: nat)
    requires k.For(src) && i < prev < i + 65536 && i + 4 <= |src| && k.head[Hash(Load32(src, i))] == prev + 1
    ensures i - Inserted(src, i, k).chain[i] == prev - 65536
  {
    hide Load32, Hash;
  }

  /** Zeros, but for the same six bytes at both ends and the first four of them in
      between. */
  function FarSource(): (src: seq<byte>)
    ensures |src| == 65560
  {
    seq(65560, j => FarByte(j))
  }

  function FarByte(j: int): (b: byte) {
    if 0 <= j < 6 || 65530 <= j < 65534 then 1 + j % 2 else if 65535 <= j < 65541 then 2 - j % 2 else 0
  }

  /** Old deltas that differ in one position, which neither call indexes. */
  function Stale(d: uint16): (chain: seq<uint16>) { seq(65560, j => if j == 1 then d else 0) }

  /** The links once the last position is indexed and an earlier one after it, as the
      optimal parse does behind a batch that it cut short. */
  function Reindexed(d: uint16): (k: Links)
    ensures k.For(FarSource())
  {
    Inserted(FarSource(), 65530, Inserted(FarSource(), 65537, Cleared(FarSource(), Stale(d))))
  }

  lemma {:induction false} FarLoads()
    ensures var src := FarSource();
      Load32(src, 65530) == Load32(src, 65535) == Load32(src, 65537) == Load32(src, 0) && Load32(src, 1) != Load32(src, 0)
  {
  }

  lemma {:induction false} ReindexedLinks(d: uint16)
    ensures var k := Reindexed(d);
      k.head[Hash(Load32(FarSource(), 65535))] == 65531 && k.chain[65530] == 65529 && k.chain[1] == d && k.chain[0] == 0
  {
    hide Load32, Hash;
    FarLoads();
    var src := FarSource();
    var k := Inserted(src, 65537, Cleared(src, Stale(d)));
    WrapLeads(src, 65530, k, 65537);
  }

  lemma {:induction false} FarRun(a: nat, n: nat)
    requires (a == 65530 && n == 4) || (a == 0 && n == 20)
    ensures CommonRun(FarSource(), a, 65535, 20) == n
  {
    hide CommonRun;
    var src := FarSource();
    assert Repeats(src, 65535, 65535 - a, n);
    RunUnique(src, a, 65535, 20, n);
  }

  /** One more candidate of the search at i. */
  lemma {:induction false} SearchGoes(src: seq<byte>, chain: seq<uint16>, i: nat, cand: nat, attempts: nat, m: Match)
    requires cand < i <= cand + MAX_DISTANCE && i + MF_LIMIT < |src| <= |chain| && RunAt(src, i, m) && attempts > 0
    ensures i + m.len + LAST_LITERALS <= |src| && RunAt(src, i, TriedAt(src, i, cand, m))
    ensures var t := TriedAt(src, i, cand, m);
      LengthenFrom(src, chain, i, cand, attempts, m)
      == if (t.len > m.len && i + t.len + LAST_LITERALS == |src|) || chain[cand] == 0 then t
         else LengthenFrom(src, chain, i, cand - chain[cand], attempts - 1, t)
  {
    hide TriedAt, RunAt;
    TriedRun(src, i, cand, m);
  }

  lemma {:induction false} FarTries()
    ensures var src := FarSource(); var m := Match(65535, 65530, 4);
      TriedAt(src, 65535, 65530, NO_MATCH) == m && TriedAt(src, 65535, 1, m) == m && TriedAt(src, 65535, 0, m) == Match(65535, 0, 20)
  {
    hide CommonRun, Load32;
    FarLoads();
    FarRun(65530, 4);
    FarRun(0, 20);
  }

  lemma {:induction false} FarStart(d: uint16)
    ensures FirstCandidate(FarSource(), Reindexed(d), 65535) == 65530
  {
    hide Load32, Hash, Reindexed;
    ReindexedLinks(d);
  }

  /** Both calls have indexed the same positions of the same source; what an old delta
      says, at a position neither has indexed, decides which match they find. */
  lemma {:induction false} StaleReached()
    ensures Longest(FarSource(), Reindexed(0), 65535) == Match(65535, 65530, 4)
    ensures Longest(FarSource(), Reindexed(1), 65535) == Match(65535, 0, 20)
  {
    FarFinds(0, Match(65535, 65530, 4));
    FarFinds(1, Match(65535, 0, 20));
  }

  lemma {:induction false} FarFinds(d: uint16, m: Match)
    requires if d == 0 then m == Match(65535, 65530, 4) else d == 1 && m == Match(65535, 0, 20)
    ensures Longest(FarSource(), Reindexed(d), 65535) == m
  {
    hide Load32, Hash, Reindexed, FirstCandidate, LengthenFrom, TriedAt, RunAt, FarSource;
    var src, k := FarSource(), Reindexed(d);
    NoRun(src, 65535);
    ReindexedLinks(d);
    FarTries();
    FarStart(d);
    SearchGoes(src, k.chain, 65535, 65530, ATTEMPTS, NO_MATCH);
    var found := Match(65535, 65530, 4);
    SearchGoes(src, k.chain, 65535, 1, ATTEMPTS - 1, found);
    if d == 1 { SearchGoes(src, k.chain, 65535, 0, ATTEMPTS - 2, found); }
  }
}
