/**
 The parse each encoder chooses, as a function of the source and of what its chains
 held before: independent of the buffer it is written to and of any output target.
 */
module Lz4Plan {
  import opened Bytes
  import opened Lz4Format
  import opened Lz4Emit
  import opened Lz4Finder
  import opened Lz4Pricing

  /** q goes on from p. */
  predicate Extends(p: Plan, q: Plan) { p.sequences <= q.sequences }

  lemma {:induction false} ExtendsTrans(p: Plan, q: Plan, r: Plan)
    requires Extends(p, q) && Extends(q, r)
    ensures Extends(p, r)
  {
  }

  /** A front of a plan that is too large condemns the plan. */
  lemma {:induction false} PlanRefused(src: seq<byte>, front: Plan, mid: Plan, plan: Plan, capacity: int, limit: int)
    requires plan.Ok(src) && front.Ok(src) && Extends(front, mid) && Extends(mid, plan) && front.sequences != []
    requires capacity < |EncodeSequences(front.sequences)| + 2 || limit < |EncodeSequences(front.sequences)|
    ensures Refused(src, plan, capacity, limit)
  {
    hide EncodeSequences, EncodeBlock;
    ExtendsTrans(front, mid, plan);
    RefusedBy(src, front, plan, capacity, limit);
  }

  /** The chains a call starts with: no entry points, old deltas if there is room. */
  function Cleared(src: seq<byte>, chain: seq<uint16>): (k: Links)
    ensures k.For(src)
  {
    Links(seq(HASH_SIZE, _ => 0), if |chain| < |src| then seq(|src|, _ => 0) else chain)
  }

  // ---- the greedy parse with overlap resolution --------------------------------

  /** The chains, the parse, and the match about to be committed. */
  datatype Pick = Pick(links: Links, plan: Plan, m: Match) {
    ghost predicate For(src: seq<byte>) {
      links.For(src) && plan.anchor <= m.start && m.ref <= m.start && m.start + m.len <= |src|
    }
    /** All that has been chosen is genuine. */
    ghost predicate Ok(src: seq<byte>) {
      For(src) && plan.Ok(src) && MatchAt(src, m.start, m.ref, m.len) && m.start + MF_LIMIT <= |src|
    }
  }

  /** The chains once the end of the match is indexed, up to where the probe starts. */
  function Probed(src: seq<byte>, i: nat, k: Links, m: Match): (r: Links)
    requires k.For(src) && m.len > 2 && MF_LIMIT <= |src|
    ensures r.For(src) && |r.chain| == |k.chain|
  {
    var end := m.start + m.len;
    InsertedAll(src, Max(i + 1, end - 4), Min(end - 1, |src| - MF_LIMIT), k)
  }

  /** The plan when m overrides the current match: what remains of that one before m is
      taken if it is long enough, and stays literals otherwise. */
  function Shortened(src: seq<byte>, p: Plan, current: Match, m: Match): (r: Plan)
    requires p.anchor <= current.start <= |src| && current.ref <= current.start
    ensures current.start <= m.start ==> r.anchor <= m.start
  {
    if m.start >= current.start + MIN_MATCH then Taken(src, p, current.(len := m.start - current.start)) else p
  }

  /** The pick once no wider match starts inside it. */
  function Resolved(src: seq<byte>, i: nat, z: Pick): (r: Pick)
    requires z.For(src)
    ensures r.For(src) && |r.links.chain| == |z.links.chain| && z.m.start + z.m.len <= r.m.start + r.m.len
    decreases |src| - z.m.len
  {
    hide Links.For, Repeats, Wider, Probed, Shortened;
    var end := z.m.start + z.m.len;
    if z.m.len <= 2 || end - 2 + MF_LIMIT >= |src| then z
    else
      var k := Probed(src, i, z.links, z.m);
      var m := Wider(src, k, end - 2, z.m.start);
      if m.len <= z.m.len || m.start + m.len <= end then Pick(k, z.plan, z.m)
      else Resolved(src, i, Pick(k, Shortened(src, z.plan, z.m, m), m))
  }

  /** Shortening keeps the plan genuine. */
  lemma {:induction false} ShortenedOk(src: seq<byte>, z: Pick, m: Match)
    requires z.Ok(src) && z.m.start <= m.start && m.start + m.len > z.m.start + z.m.len && m.start <= z.m.start + z.m.len
    ensures Shortened(src, z.plan, z.m, m).Ok(src) && Extends(z.plan, Shortened(src, z.plan, z.m, m))
    ensures Shortened(src, z.plan, z.m, m).anchor == if m.start >= z.m.start + MIN_MATCH then m.start else z.plan.anchor
  {
    hide Links.For, Repeats, Plan.Ok;
    if m.start >= z.m.start + MIN_MATCH {
      var kept := z.m.(len := m.start - z.m.start);
      MatchShorter(src, z.m.start, z.m.ref, z.m.len, kept.len);
      CommitMatch(src, z.plan, kept);
    }
  }

  lemma {:induction false} ResolvedOk(src: seq<byte>, i: nat, z: Pick)
    requires z.Ok(src)
    ensures Resolved(src, i, z).Ok(src) && Extends(z.plan, Resolved(src, i, z).plan)
    decreases |src| - z.m.len
  {
    hide Links.For, Repeats, Plan.Ok, Wider, Probed, Shortened;
    var end := z.m.start + z.m.len;
    if z.m.len > 2 && end - 2 + MF_LIMIT < |src| {
      var k := Probed(src, i, z.links, z.m);
      var m := Wider(src, k, end - 2, z.m.start);
      if m.len > z.m.len && m.start + m.len > end {
        ShortenedOk(src, z, m);
        var plan := Shortened(src, z.plan, z.m, m);
        ResolvedOk(src, i, Pick(k, plan, m));
        ExtendsTrans(z.plan, plan, Resolved(src, i, Pick(k, plan, m)).plan);
      }
    }
  }

  /** The links after a greedy round that took z at i. */
  function GreedyLinks(src: seq<byte>, i: nat, z: Pick): (k: Links)
    requires z.For(src) && MF_LIMIT <= |src|
    ensures k.For(src)
  {
    var next := z.m.start + z.m.len;
    InsertedAll(src, Max(i + 1, next - MAX_DISTANCE), Min(next, |src| - MF_LIMIT), z.links)
  }

  /** The greedy parse from position i on. */
  function GreedyFrom(src: seq<byte>, k: Links, p: Plan, i: nat): (r: Plan)
    requires k.For(src) && p.anchor <= i && MF_LIMIT <= |src|
    decreases |src| - i
  {
    hide Links.For, Repeats, Wider, GreedyLinks, Inserted, Resolved;
    if i + MF_LIMIT >= |src| then p
    else
      var m := Wider(src, k, i, p.anchor);
      if m.len == 0 then GreedyFrom(src, if i + 1 + MF_LIMIT < |src| then Inserted(src, i + 1, k) else k, p, i + 1)
      else
        var z := Resolved(src, i, Pick(k, p, m));
        var next := z.m.start + z.m.len;
        GreedyFrom(src, GreedyLinks(src, i, z), Taken(src, z.plan, z.m), next)
  }

  lemma {:induction false} GreedyOk(src: seq<byte>, k: Links, p: Plan, i: nat)
    requires k.For(src) && p.Ok(src) && p.anchor <= i && MF_LIMIT <= |src|
    ensures GreedyFrom(src, k, p, i).Ok(src) && Extends(p, GreedyFrom(src, k, p, i))
    decreases |src| - i
  {
    hide Links.For, Repeats, Plan.Ok, Wider, GreedyLinks, Inserted, Resolved;
    if i + MF_LIMIT < |src| {
      var m := Wider(src, k, i, p.anchor);
      if m.len == 0 {
        GreedyOk(src, if i + 1 + MF_LIMIT < |src| then Inserted(src, i + 1, k) else k, p, i + 1);
      } else {
        ResolvedOk(src, i, Pick(k, p, m));
        var z := Resolved(src, i, Pick(k, p, m));
        var next := z.m.start + z.m.len;
        CommitMatch(src, z.plan, z.m);
        GreedyOk(src, GreedyLinks(src, i, z), Taken(src, z.plan, z.m), next);
        ExtendsTrans(p, z.plan, Taken(src, z.plan, z.m));
        ExtendsTrans(p, Taken(src, z.plan, z.m), GreedyFrom(src, GreedyLinks(src, i, z), Taken(src, z.plan, z.m), next));
      }
    }
  }

  /** How a round that finds a match goes on with its plan. */
  lemma {:induction false} GreedyStep(src: seq<byte>, k: Links, p: Plan, i: nat)
    requires k.For(src) && p.Ok(src) && p.anchor <= i && i + MF_LIMIT < |src| && Wider(src, k, i, p.anchor).len > 0
    ensures var z := Resolved(src, i, Pick(k, p, Wider(src, k, i, p.anchor)));
      var plan, taken, next := GreedyFrom(src, k, p, i), Taken(src, z.plan, z.m), z.m.start + z.m.len;
      z.Ok(src) && Pick(k, p, Wider(src, k, i, p.anchor)).Ok(src) && Extends(z.plan, plan)
      && taken.Ok(src) && Extends(taken, plan) && i < next && GreedyFrom(src, GreedyLinks(src, i, z), taken, next) == plan
  {
    hide Links.For, Repeats, Plan.Ok, Wider, GreedyLinks, Inserted, Resolved;
    var m := Wider(src, k, i, p.anchor);
    ResolvedOk(src, i, Pick(k, p, m));
    var z := Resolved(src, i, Pick(k, p, m));
    CommitMatch(src, z.plan, z.m);
    var taken, next := Taken(src, z.plan, z.m), z.m.start + z.m.len;
    GreedyOk(src, GreedyLinks(src, i, z), taken, next);
    ExtendsTrans(z.plan, taken, GreedyFrom(src, k, p, i));
  }

  /** Sources too short for a match are all literals. */
  predicate Short(src: seq<byte>) { |src| < MF_LIMIT + MIN_MATCH }

  /** What the greedy encoder chooses. */
  function GreedyPlan(src: seq<byte>, chain: seq<uint16>): (r: Plan) {
    if Short(src) then START else GreedyFrom(src, Inserted(src, 0, Cleared(src, chain)), START, 0)
  }

  /** Whatever the chains held, the greedy plan is a parse of the source. */
  lemma {:induction false} GreedyPlanOk(src: seq<byte>, chain: seq<uint16>)
    ensures GreedyPlan(src, chain).Ok(src)
    ensures Encodes(EncodeBlock(GreedyPlan(src, chain).Complete(src)), src)
  {
    hide GreedyFrom, Inserted, Encodes;
    StartParse(src, []);
    if !Short(src) { GreedyOk(src, Inserted(src, 0, Cleared(src, chain)), START, 0); }
    TailCompletes(src, GreedyPlan(src, chain));
  }

  // ---- the optimal parse ----------------------------------------------------------

  /** The last position of the batch where a sequence ends; later literals wait. */
  function LastEnd(opt: seq<OptEntry>, q: nat): (r: nat)
    requires q < |opt|
    ensures r <= q && (r == 0 || opt[r].mlen != 1)
    decreases q
  {
    if q == 0 || opt[q].mlen != 1 then q else LastEnd(opt, q - 1)
  }

  function MatchOf(ip: nat, s: Step): (m: Match)
    requires 0 <= ip + s.start - s.off && 0 <= ip + s.start && 0 <= s.mlen
  {
    Match(ip + s.start, ip + s.start - s.off, s.mlen)
  }

  /** The plan continued by a path of the batch at ip. */
  function TakenPath(src: seq<byte>, ip: nat, p: Plan, path: seq<Step>): (r: Plan)
    requires p.anchor <= ip && Tiles(src, ip, path)
    ensures r.anchor == if path == [] then p.anchor else ip + End(path)
    decreases |path|
  {
    if path == [] then p
    else
      var n := |path| - 1;
      TilesFront(src, ip, path, n);
      TilesAt(src, ip, path, n);
      Taken(src, TakenPath(src, ip, p, path[..n]), MatchOf(ip, path[n]))
  }

  lemma {:induction false} TilesFront(src: seq<byte>, ip: nat, path: seq<Step>, n: nat)
    requires Tiles(src, ip, path) && n <= |path|
    ensures Tiles(src, ip, path[..n])
  {
    hide MatchAt, End;
    forall j | 0 <= j < n ensures StepOk(src, ip, path[..n], j) {
      assert StepOk(src, ip, path, j);
      assert path[..n][..j] == path[..j];
    }
  }

  /** A path's matches extend the plan by exactly its cost. */
  lemma {:induction false} TakenPathOk(src: seq<byte>, ip: nat, p: Plan, path: seq<Step>)
    requires p.Ok(src) && p.anchor <= ip && Tiles(src, ip, path)
    ensures var r := TakenPath(src, ip, p, path);
      r.Ok(src) && Extends(p, r)
      && |EncodeSequences(r.sequences)| == |EncodeSequences(p.sequences)| + Cost(path, ip - p.anchor)
    decreases |path|
  {
    hide Repeats, Plan.Ok, EncodeSequences, EncodeSequence, SeqPrice;
    if path != [] {
      var n := |path| - 1;
      TilesFront(src, ip, path, n);
      TilesAt(src, ip, path, n);
      TakenPathOk(src, ip, p, path[..n]);
      var q, m := TakenPath(src, ip, p, path[..n]), MatchOf(ip, path[n]);
      CommitMatch(src, q, m);
      PriceIsSize(SequenceFor(src, q.anchor, m.start, m.start - m.ref, m.len));
      ExtendsTrans(p, q, Taken(src, q, m));
    }
  }

  lemma {:induction false} TakenPathFront(src: seq<byte>, ip: nat, p: Plan, path: seq<Step>, j: nat)
    requires p.anchor <= ip && Tiles(src, ip, path) && j <= |path|
    ensures Tiles(src, ip, path[..j]) && Extends(TakenPath(src, ip, p, path[..j]), TakenPath(src, ip, p, path))
    decreases |path|
  {
    hide Tiles, Taken;
    TilesFront(src, ip, path, j);
    if j == |path| {
      assert path[..j] == path;
    } else {
      var n := |path| - 1;
      TilesFront(src, ip, path, n);
      TilesAt(src, ip, path, n);
      TakenPathFront(src, ip, p, path[..n], j);
      assert path[..n][..j] == path[..j];
      var q := TakenPath(src, ip, p, path[..n]);
      TakenExtends(src, q, MatchOf(ip, path[n]));
      ExtendsTrans(TakenPath(src, ip, p, path[..j]), q, TakenPath(src, ip, p, path));
    }
  }

  lemma {:induction false} TakenExtends(src: seq<byte>, p: Plan, m: Match)
    requires p.anchor <= m.start <= |src| && m.ref <= m.start
    ensures Extends(p, Taken(src, p, m)) && Taken(src, p, m).sequences != [] && Taken(src, p, m).anchor == m.start + m.len
  {
  }

  /** The batch that a match at ip opens. */
  function BatchAt(src: seq<byte>, k: Links, m: Match): (b: Batch)
    requires k.For(src) && m.start + MF_LIMIT < |src| && m.ref <= m.start && MIN_MATCH <= m.len < SUFFICIENT_LEN
    ensures b.links.For(src) && |b.links.chain| == |k.chain| && 0 < |b.opt| <= OPT_WINDOW
  {
    BatchFrom(src, m.start, k, Seeded(m.start - m.ref, m.len), 1)
  }

  /** The sequences a batch chooses: they are genuine, end where the batch's last
      sequence ends, and cost exactly what the table says. */
  lemma {:induction false} BatchPath(src: seq<byte>, k: Links, m: Match)
    requires k.For(src) && m.start + MF_LIMIT < |src| && m.len < SUFFICIENT_LEN && MatchAt(src, m.start, m.ref, m.len)
    ensures var opt := BatchAt(src, k, m).opt; var end := LastEnd(opt, |opt| - 1);
      Anchored(opt, end) && Priced(src, m.start, opt, |opt| - 1) && Tiles(src, m.start, Path(opt, end))
      && End(Path(opt, end)) == end && Cost(Path(opt, end), 0) == opt[end].price
  {
    hide BatchFrom, Repeats, Tiles, Cost, Path, Links.For;
    SeededPriced(src, m.start, m.ref, m.len);
    BatchPriced(src, m.start, k, Seeded(m.start - m.ref, m.len), 1);
    var opt := BatchAt(src, k, m).opt;
    var end := LastEnd(opt, |opt| - 1);
    if end > 0 { assert EntryOk(src, m.start, opt, end); }
    PathExact(src, m.start, opt, end);
  }

  /** A batch's sequences are genuine and in order. */
  ghost predicate BatchTakes(src: seq<byte>, k: Links, m: Match)
    requires k.For(src) && m.start + MF_LIMIT < |src| && m.ref <= m.start && MIN_MATCH <= m.len < SUFFICIENT_LEN
  {
    Tiles(src, m.start, Path(BatchAt(src, k, m).opt, BatchEnd(src, k, m)))
  }

  /** How far a batch commits. */
  function BatchEnd(src: seq<byte>, k: Links, m: Match): (end: nat)
    requires k.For(src) && m.start + MF_LIMIT < |src| && m.ref <= m.start && MIN_MATCH <= m.len < SUFFICIENT_LEN
  {
    var opt := BatchAt(src, k, m).opt;
    LastEnd(opt, |opt| - 1)
  }

  /** The plan continued by a batch. */
  function BatchTaken(src: seq<byte>, k: Links, p: Plan, m: Match): (r: Plan)
    requires k.For(src) && m.start + MF_LIMIT < |src| && m.ref <= m.start && MIN_MATCH <= m.len < SUFFICIENT_LEN
    requires p.anchor <= m.start && BatchTakes(src, k, m)
  {
    TakenPath(src, m.start, p, Path(BatchAt(src, k, m).opt, BatchEnd(src, k, m)))
  }

  lemma {:induction false} TakenNone(src: seq<byte>, ip: nat, p: Plan, path: seq<Step>)
    requires p.anchor <= ip && Tiles(src, ip, path)
    ensures Tiles(src, ip, path[..0]) && TakenPath(src, ip, p, path[..0]) == p
  {
  }

  lemma {:induction false} BatchFacts(src: seq<byte>, k: Links, m: Match)
    requires k.For(src) && m.start + MF_LIMIT < |src| && m.len < SUFFICIENT_LEN && MatchAt(src, m.start, m.ref, m.len)
    ensures BatchTakes(src, k, m)
  {
    hide Tiles, Path, Links.For, BatchAt, LastEnd, Repeats, Priced;
    BatchPath(src, k, m);
  }

  /** What one round of the optimal parse leaves: chains, plan and position. */
  datatype Round = Round(links: Links, plan: Plan, ip: nat)

  /** Handles position ip: steps over it, takes a long match at once, or prices a
      batch.  Every round moves on. */
  function RoundAt(src: seq<byte>, k: Links, p: Plan, ip: nat): (r: Round)
    requires k.For(src) && p.anchor <= ip && ip + MF_LIMIT < |src|
    ensures r.links.For(src) && |r.links.chain| == |k.chain| && r.plan.anchor <= r.ip && ip < r.ip
  {
    hide Links.For, Repeats, Longest, Advanced, Inserted, BatchAt, Tiles, Path, Priced, LastEnd;
    var m := Longest(src, k, ip);
    if m.len == 0 then Round(if ip + 1 + MF_LIMIT < |src| then Inserted(src, ip + 1, k) else k, p, ip + 1)
    else if m.len >= SUFFICIENT_LEN then
      Round(Advanced(src, ip, m.len, k), Taken(src, p, m), ip + m.len)
    else
      BatchPath(src, k, m);
      var consumed := Max(BatchEnd(src, k, m), 1);
      Round(Advanced(src, ip, consumed, BatchAt(src, k, m).links), BatchTaken(src, k, p, m), ip + consumed)
  }

  /** The chains once the positions a batch consumed are indexed. */
  function Advanced(src: seq<byte>, ip: nat, consumed: nat, k: Links): (r: Links)
    requires k.For(src) && MF_LIMIT <= |src|
    ensures r.For(src) && |r.chain| == |k.chain|
  {
    InsertedAll(src, Max(ip + 1, ip + consumed - MAX_DISTANCE), Min(ip + consumed, |src| - MF_LIMIT), k)
  }

  lemma {:induction false} RoundOk(src: seq<byte>, k: Links, p: Plan, ip: nat)
    requires k.For(src) && p.Ok(src) && p.anchor <= ip && ip + MF_LIMIT < |src|
    ensures RoundAt(src, k, p, ip).plan.Ok(src) && Extends(p, RoundAt(src, k, p, ip).plan)
  {
    hide Links.For, Repeats, Plan.Ok, Longest, Advanced, BatchAt, Path, Tiles, Priced;
    var m := Longest(src, k, ip);
    if m.len >= SUFFICIENT_LEN {
      CommitMatch(src, p, m);
    } else if m.len > 0 {
      BatchPath(src, k, m);
      TakenPathOk(src, ip, p, Path(BatchAt(src, k, m).opt, BatchEnd(src, k, m)));
    }
  }

  /** The optimal parse from position ip on. */
  function OptFrom(src: seq<byte>, k: Links, p: Plan, ip: nat): (r: Plan)
    requires k.For(src) && p.anchor <= ip && MF_LIMIT <= |src|
    decreases |src| - ip
  {
    if ip + MF_LIMIT >= |src| then p
    else
      var r := RoundAt(src, k, p, ip);
      OptFrom(src, r.links, r.plan, r.ip)
  }

  lemma {:induction false} OptOk(src: seq<byte>, k: Links, p: Plan, ip: nat)
    requires k.For(src) && p.Ok(src) && p.anchor <= ip && MF_LIMIT <= |src|
    ensures OptFrom(src, k, p, ip).Ok(src) && Extends(p, OptFrom(src, k, p, ip))
    decreases |src| - ip
  {
    hide Links.For, Plan.Ok, RoundAt;
    if ip + MF_LIMIT < |src| {
      RoundOk(src, k, p, ip);
      var r := RoundAt(src, k, p, ip);
      OptOk(src, r.links, r.plan, r.ip);
      ExtendsTrans(p, r.plan, OptFrom(src, r.links, r.plan, r.ip));
    }
  }

  /** How a round goes on with its plan. */
  lemma {:induction false} OptStep(src: seq<byte>, k: Links, p: Plan, ip: nat)
    requires k.For(src) && p.Ok(src) && p.anchor <= ip && ip + MF_LIMIT < |src|
    ensures var plan, r := OptFrom(src, k, p, ip), RoundAt(src, k, p, ip);
      r.plan.Ok(src) && Extends(r.plan, plan) && OptFrom(src, r.links, r.plan, r.ip) == plan
  {
    hide Links.For, Plan.Ok, RoundAt;
    RoundOk(src, k, p, ip);
    var r := RoundAt(src, k, p, ip);
    OptOk(src, r.links, r.plan, r.ip);
  }

  lemma {:induction false} OptDone(src: seq<byte>, k: Links, p: Plan, ip: nat)
    requires k.For(src) && p.anchor <= ip && MF_LIMIT <= |src| <= ip + MF_LIMIT
    ensures OptFrom(src, k, p, ip) == p
  {
  }

  /** What the optimal parse chooses. */
  function OptPlan(src: seq<byte>, chain: seq<uint16>): (r: Plan) {
    if Short(src) then START else OptFrom(src, Inserted(src, 0, Cleared(src, chain)), START, 0)
  }

  /** Whatever the chains held, the optimal plan is a parse of the source. */
  lemma {:induction false} OptPlanOk(src: seq<byte>, chain: seq<uint16>)
    ensures OptPlan(src, chain).Ok(src)
    ensures Encodes(EncodeBlock(OptPlan(src, chain).Complete(src)), src)
  {
    hide OptFrom, Inserted, Encodes;
    StartParse(src, []);
    if !Short(src) { OptOk(src, Inserted(src, 0, Cleared(src, chain)), START, 0); }
    TailCompletes(src, OptPlan(src, chain));
  }
}
