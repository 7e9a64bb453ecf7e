/**
 The high-compression encoder: hash chains in arrays, a greedy parse with overlap
 resolution, and an optimal parse in batches.  Each method computes its
 specification function, so what is written is the plan of that parse, and giving
 up is exactly a matter of the plan's size.
 */
module Lz4Encoder {
  import opened Bytes
  import opened Lz4Format
  import opened Lz4Emit
  import opened Lz4Finder
  import opened Lz4Pricing
  import opened Lz4Plan

  /** The longest common run of src at a and at b, up to maxLen, comparing eight
      bytes at a time while they last. */
  method MatchLenAt(src: seq<byte>, a: nat, b: nat, maxLen: nat) returns (n: nat)
    requires a <= b && b + maxLen <= |src|
    ensures n == CommonRun(src, a, b, maxLen)
  {
    n := 0;
    while n + 8 <= maxLen && src[a + n..a + n + 8] == src[b + n..b + n + 8]
      invariant n <= maxLen && Repeats(src, b, b - a, n)
    {
      forall p | b + n <= p < b + n + 8 ensures src[p - (b - a)] == src[p] {
        assert src[a + n..a + n + 8][p - b - n] == src[b + n..b + n + 8][p - b - n];
      }
      n := n + 8;
    }
    while n < maxLen && src[a + n] == src[b + n]
      invariant n <= maxLen && Repeats(src, b, b - a, n)
    {
      n := n + 1;
    }
    RunUnique(src, a, b, maxLen, n);
  }

  /** How far the bytes before i and before cand agree, up to max. */
  method MatchBack(src: seq<byte>, cand: nat, i: nat, max: nat) returns (back: nat)
    requires cand <= i <= |src| && max <= cand
    ensures back == BackRun(src, cand, i, max)
  {
    back := 0;
    while back < max && src[i - back - 1] == src[cand - back - 1]
      invariant back <= max && Repeats(src, i - back, i - cand, back)
    {
      back := back + 1;
    }
    BackRunUnique(src, cand, i, max, back);
  }

  lemma {:induction false} StartWritten(src: seq<byte>, dst: array<byte>)
    ensures Written(src, dst, 0, START)
  {
    StartParse(src, dst[..0]);
  }

  class Encoder {
    const head: array<nat>      // hash of a 4-byte prefix -> latest position + 1
    var chain: array<uint16>    // position -> backward delta to the previous one
    var opt: seq<OptEntry>      // optimal-parse scratch, allocated on first use

    ghost predicate Valid()
      reads this
    {
      head.Length == HASH_SIZE && head as object != chain as object
      && (opt == [] || |opt| == OPT_SIZE)
    }

    /** The chains as a value. */
    ghost function State(): (k: Links)
      reads this, head, chain
    {
      Links(head[..], chain[..])
    }

    /** Valid, and the chains are those of a parse of src. */
    ghost predicate Ready(src: seq<byte>)
      reads this, head, chain
    {
      Valid() && State().For(src)
    }

    /** dst is none of the encoder's own tables. */
    ghost predicate Apart(dst: array<byte>)
      reads this
    {
      dst as object != head as object && dst as object != chain as object
    }

    constructor ()
      ensures Valid() && fresh(head) && fresh(chain)
    {
      head := new nat[HASH_SIZE](_ => 0);
      chain := new uint16[0];
      opt := [];
    }

    /** Sizes the chain for src and forgets every entry point. */
    method Reset(src: seq<byte>)
      requires Valid()
      modifies this`chain, head
      ensures Ready(src) && (chain == old(chain) || fresh(chain))
      ensures State() == Cleared(src, old(chain[..]))
    {
      if chain.Length < |src| { chain := new uint16[|src|](_ => 0); }
      forall h | 0 <= h < HASH_SIZE { head[h] := 0; }
    }

    /** Links position i into its hash chain; re-inserting the head is a no-op. */
    method Insert(src: seq<byte>, i: nat)
      requires Ready(src) && i + 4 <= |src|
      modifies head, chain
      ensures Ready(src) && State() == Inserted(src, i, old(State()))
    {
      var h := Hash(Load32(src, i));
      var prev := (head[h] as int) - 1;
      if prev == i { return; }
      chain[i] := if prev >= 0 && i - prev <= MAX_DISTANCE then (i - prev) % 65536 else 0;
      head[h] := i + 1;
    }

    method InsertRange(src: seq<byte>, from: nat, to: nat)
      requires Ready(src) && to + MF_LIMIT <= |src|
      modifies head, chain
      ensures Ready(src) && State() == InsertedAll(src, from, to, old(State()))
    {
      hide Inserted;
      var j := from;
      while j < to
        invariant Ready(src) && InsertedAll(src, j, to, State()) == InsertedAll(src, from, to, old(State()))
      {
        Insert(src, j);
        j := j + 1;
      }
    }

    /** The newest candidate strictly before i, or a negative number. */
    method Candidate(src: seq<byte>, i: nat) returns (cand: int)
      requires Ready(src) && i + 4 <= |src|
      ensures cand == FirstCandidate(src, State(), i)
    {
      cand := (head[Hash(Load32(src, i))] as int) - 1;
      while cand >= i
        invariant cand < |src| && NewestBefore(chain[..], cand, i) == FirstCandidate(src, State(), i)
        decreases cand
      {
        var d := chain[cand];
        if d == 0 { return -1; }
        cand := cand - d;
      }
    }

    /** Extends the candidate both ways and keeps it when it is wider. */
    method TryCandidate(src: seq<byte>, i: nat, minStart: nat, cand: nat, m: Match) returns (r: Match)
      requires cand < i && minStart <= i && i + MF_LIMIT < |src|
      ensures r == Tried(src, i, minStart, cand, m)
    {
      hide Load32, CommonRun, BackRun, Repeats, Viable;
      r := m;
      if !Viable(src, i, cand, m.len) || Load32(src, cand) != Load32(src, i) { return; }
      var maxBack := Min(i - minStart, MAX_BACK);
      var fwd := MatchLenAt(src, cand, i, |src| - LAST_LITERALS - i);
      if fwd < MIN_MATCH || fwd + maxBack <= m.len { return; }
      var candidateBack := Min(maxBack, cand);
      var needBack := m.len - fwd + 1;
      if needBack > candidateBack || (needBack > 0 && src[i - needBack] != src[cand - needBack]) { return; }
      var back := MatchBack(src, cand, i, candidateBack);
      if fwd + back > m.len { r := Match(i - back, cand - back, fwd + back); }
    }

    /** The widest match around i found on its chain. */
    method WiderMatch(src: seq<byte>, i: nat, minStart: nat) returns (m: Match)
      requires Ready(src) && minStart <= i && i + MF_LIMIT < |src|
      ensures m == Wider(src, State(), i, minStart)
    {
      hide MatchAt, Load32, Tried, FirstCandidate;
      m := NO_MATCH;
      var cand := Candidate(src, i);
      var attempts := ATTEMPTS;
      while attempts > 0 && cand >= 0 && cand >= i - MAX_DISTANCE
        invariant 0 <= attempts && cand < i && Around(src, i, minStart, m)
        invariant WidenFrom(src, chain[..], i, minStart, cand, attempts, m)
          == WidenFrom(src, chain[..], i, minStart, FirstCandidate(src, State(), i), ATTEMPTS, NO_MATCH)
        decreases attempts
      {
        TriedAround(src, i, minStart, cand, m);
        var before := m.len;
        m := TryCandidate(src, i, minStart, cand, m);
        var d := chain[cand];
        if m.len > before && m.len >= GOOD_ENOUGH { break; }
        if d == 0 { break; }
        cand := cand - d;
        attempts := attempts - 1;
      }
      if m.len < MIN_MATCH { return NO_MATCH; }
    }

    /** Takes the candidate when it matches further from i on. */
    method TryForward(src: seq<byte>, i: nat, cand: nat, m: Match) returns (r: Match)
      requires cand < i && i + MF_LIMIT < |src| && i + m.len + LAST_LITERALS <= |src|
      ensures r == TriedAt(src, i, cand, m)
    {
      r := m;
      if Load32(src, cand) == Load32(src, i) && (m.len == 0 || src[cand + m.len] == src[i + m.len]) {
        var l := MatchLenAt(src, cand, i, |src| - LAST_LITERALS - i);
        if l > m.len { r := Match(i, cand, l); }
      }
    }

    /** The longest match starting exactly at i found on its chain. */
    method ForwardMatch(src: seq<byte>, i: nat) returns (m: Match)
      requires Ready(src) && i + MF_LIMIT < |src|
      ensures m == Longest(src, State(), i)
    {
      hide MatchAt, Load32, FirstCandidate, TriedAt, RunAt;
      NoRun(src, i);
      m := NO_MATCH;
      var cand := Candidate(src, i);
      var maxLen := |src| - LAST_LITERALS - i;
      var attempts := ATTEMPTS;
      while attempts > 0 && cand >= 0 && cand >= i - MAX_DISTANCE
        invariant 0 <= attempts && cand < i && RunAt(src, i, m) && m.len <= maxLen
        invariant LengthenFrom(src, chain[..], i, cand, attempts, m)
          == LengthenFrom(src, chain[..], i, FirstCandidate(src, State(), i), ATTEMPTS, NO_MATCH)
        decreases attempts
      {
        var before := m.len;
        TriedRun(src, i, cand, m);
        m := TryForward(src, i, cand, m);
        if m.len > before && m.len >= maxLen { break; }
        var d := chain[cand];
        if d == 0 { break; }
        cand := cand - d;
        attempts := attempts - 1;
      }
      if m.len < MIN_MATCH { return NO_MATCH; }
    }

    // ---- greedy parse with overlap resolution -------------------------------

    /** Either the plan is followed so far, within limit, or it is refused. */
    ghost predicate Follows(src: seq<byte>, dst: array<byte>, d: nat, p: Plan, anchor: nat, plan: Plan, limit: int, ok: bool)
      requires plan.Ok(src)
      reads dst
    {
      if ok then Written(src, dst, d, p) && anchor == p.anchor && (p.sequences == [] || d <= limit)
      else Refused(src, plan, dst.Length, limit)
    }

    /** Probes for a wider match that starts inside the current one, committing what
        remains of the current one before it. */
    method ResolveOverlap(src: seq<byte>, dst: array<byte>, i: nat, d0: nat, ghost p0: Plan, anchor0: nat, m0: Match, ghost plan: Plan)
      returns (d: nat, ghost p: Plan, anchor: nat, m: Match, ok: bool)
      requires Ready(src) && Apart(dst) && plan.Ok(src) && Follows(src, dst, d0, p0, anchor0, plan, dst.Length, true)
      requires Pick(State(), p0, m0).Ok(src) && Extends(Resolved(src, i, Pick(State(), p0, m0)).plan, plan)
      modifies head, chain, dst
      ensures Ready(src) && Follows(src, dst, d, p, anchor, plan, dst.Length, ok)
      ensures ok ==> Pick(State(), p, m) == Resolved(src, i, old(Pick(State(), p0, m0)))
    {
      hide Refused, Repeats, InsertedAll, Wider, Plan.Ok, EncodeSequences, Links.For, MatchAt, Shortened, Written, Taken, Extends;
      d, p, anchor, m, ok := d0, p0, anchor0, m0, true;
      ghost var target := Resolved(src, i, Pick(State(), p0, m0));
      while m.len > 2 && m.start + m.len - 2 < |src| - MF_LIMIT
        invariant Ready(src) && Written(src, dst, d, p) && anchor == p.anchor && ok
        invariant Pick(State(), p, m).Ok(src) && Resolved(src, i, Pick(State(), p, m)) == target
        decreases |src| - m.len
      {
        var probeAt := m.start + m.len - 2;
        InsertRange(src, Max(i + 1, probeAt - 2), Min(probeAt + 1, |src| - MF_LIMIT));
        var m2 := WiderMatch(src, probeAt, m.start);
        if m2.len <= m.len || m2.start + m2.len <= m.start + m.len { break; }
        d, ok := CommitFront(src, dst, d, p, anchor, m, m2);
        ghost var z := Pick(State(), p, m);
        WiderFacts(src, State(), probeAt, m.start);
        ShortenedOk(src, z, m2);
        p, anchor := Shortened(src, p, m, m2), if m2.start >= m.start + MIN_MATCH then m2.start else anchor;
        if !ok {
          ResolvedOk(src, i, Pick(State(), p, m2));
          PlanRefused(src, p, target.plan, plan, dst.Length, dst.Length);
          return;
        }
        m := m2;
      }
      WrittenOk(src, dst, d, p);
    }

    lemma {:induction false} WiderFacts(src: seq<byte>, k: Links, i: nat, minStart: nat)
      requires k.For(src) && minStart <= i && i + MF_LIMIT < |src| && Wider(src, k, i, minStart).len > 0
      ensures var m := Wider(src, k, i, minStart);
        MatchAt(src, m.start, m.ref, m.len) && minStart <= m.start <= i && m.ref <= m.start && m.start + m.len <= |src|
    {
    }

    /** Commits what remains of a match before a better one, if that is long enough. */
    method CommitFront(src: seq<byte>, dst: array<byte>, d0: nat, ghost p: Plan, anchor: nat, m: Match, m2: Match) returns (d: nat, ok: bool)
      requires Apart(dst) && Written(src, dst, d0, p) && anchor == p.anchor && Ready(src) && Pick(State(), p, m).Ok(src)
      requires m.start <= m2.start <= m.start + m.len
      modifies dst
      ensures ok ==> Written(src, dst, d, Shortened(src, p, m, m2))
      ensures !ok ==> Shortened(src, p, m, m2).sequences != []
      ensures !ok ==> dst.Length < |EncodeSequences(Shortened(src, p, m, m2).sequences)| + 2
    {
      hide Repeats, Plan.Ok, EncodeSequences, Links.For;
      d, ok := d0, true;
      if m2.start >= m.start + MIN_MATCH {
        var kept := m.(len := m2.start - m.start);
        MatchShorter(src, m.start, m.ref, m.len, kept.len);
        d, ok := Commit(src, dst, d, p, anchor, kept);
      }
    }

    /** Takes the wider match at i, as the plan does. */
    method GreedyRound(src: seq<byte>, dst: array<byte>, i0: nat, d0: nat, ghost p0: Plan, anchor0: nat, m0: Match, ghost plan: Plan)
      returns (d: nat, ghost p: Plan, anchor: nat, i: nat, ok: bool)
      requires Ready(src) && Apart(dst) && plan.Ok(src) && Written(src, dst, d0, p0) && anchor0 == p0.anchor <= i0
      requires i0 + MF_LIMIT < |src| && GreedyFrom(src, State(), p0, i0) == plan && m0 == Wider(src, State(), i0, anchor0) && m0.len > 0
      modifies head, chain, dst
      ensures Ready(src)
      ensures if ok then Written(src, dst, d, p) && anchor == p.anchor <= i && i0 < i && GreedyFrom(src, State(), p, i) == plan
              else Refused(src, plan, dst.Length, dst.Length)
    {
      hide Refused, Repeats, InsertedAll, Wider, Plan.Ok, EncodeSequences, Links.For, Resolved, GreedyFrom, MatchAt;
      i := i0;
      WrittenOk(src, dst, d0, p0);
      GreedyStep(src, State(), p0, i0);
      var m;
      d, p, anchor, m, ok := ResolveOverlap(src, dst, i0, d0, p0, anchor0, m0, plan);
      if !ok { return; }
      d, ok := Commit(src, dst, d, p, anchor, m);
      p := Taken(src, p, m);
      if !ok {
        PlanRefused(src, p, p, plan, dst.Length, dst.Length);
        return;
      }
      i := m.start + m.len;
      anchor := i;
      InsertRange(src, Max(i0 + 1, i - MAX_DISTANCE), Min(i, |src| - MF_LIMIT));
    }

    lemma {:induction false} WrittenOk(src: seq<byte>, dst: array<byte>, d: nat, p: Plan)
      requires Written(src, dst, d, p)
      ensures p.Ok(src) && d <= dst.Length
    {
    }

    /** Compresses src into dst as one LZ4 block.  What is written is the greedy plan,
        whole; 0 means exactly that the plan is longer than dst. */
    method CompressBlock(src: seq<byte>, dst: array<byte>) returns (n: nat)
      requires Valid() && Apart(dst)
      modifies this, head, chain, dst
      ensures Valid() && Apart(dst) && (chain == old(chain) || fresh(chain))
      ensures GreedyPlan(src, old(chain[..])).Ok(src)
      ensures var block := EncodeBlock(GreedyPlan(src, old(chain[..])).Complete(src));
        n == (if dst.Length < |block| then 0 else |block|) && (n != 0 ==> dst[..n] == block)
      ensures n != 0 ==> Encodes(dst[..n], src)
    {
      hide Refused, Repeats, InsertedAll, Wider, Plan.Ok, EncodeSequences, EncodeBlock, Links.For, Inserted, Resolved, Encodes, Pick.Ok;
      GreedyPlanOk(src, chain[..]);
      ghost var plan := GreedyPlan(src, chain[..]);
      ghost var p := START;
      StartWritten(src, dst);
      if |src| < MF_LIMIT + MIN_MATCH {
        n := Finish(src, dst, 0, START, 0);
        return;
      }
      Reset(src);
      var mfLimit := |src| - MF_LIMIT;
      var d: nat, anchor: nat, i: nat := 0, 0, 0;
      Insert(src, 0);
      while i < mfLimit
        invariant Ready(src) && Apart(dst) && (chain == old(chain) || fresh(chain))
        invariant Written(src, dst, d, p) && anchor == p.anchor <= i && GreedyFrom(src, State(), p, i) == plan
        decreases mfLimit - i
      {
        var m := WiderMatch(src, i, anchor);
        if m.len == 0 {
          i := i + 1;
          if i < mfLimit { Insert(src, i); }
          continue;
        }
        var ok;
        d, p, anchor, i, ok := GreedyRound(src, dst, i, d, p, anchor, m, plan);
        if !ok { RefusedWhole(src, plan, dst.Length); return 0; }
      }
      n := Finish(src, dst, d, p, anchor);
    }

    // ---- optimal parse --------------------------------------------------------

    /** Prices the first match's lengths; shorter positions start open. */
    method SeedBatch(off: nat, ml: nat)
      requires |opt| == OPT_SIZE && MIN_MATCH <= ml < SUFFICIENT_LEN
      modifies this`opt
      ensures |opt| == OPT_SIZE && opt[..ml + 1] == Seeded(off, ml)
    {
      opt := opt[0 := OptEntry(0, 0, 1, 0)];
      opt := opt[1 := OPEN][2 := OPEN][3 := OPEN];
      var price := SeqPrice(0, MIN_MATCH);
      var nextPriceBump := 15 + MIN_MATCH;
      var l := MIN_MATCH;
      while l <= ml
        invariant MIN_MATCH <= l <= ml + 1 && |opt| == OPT_SIZE
        invariant forall p :: 0 <= p < l ==> opt[p] == SeedEntry(off, p)
        invariant price == SeqPrice(0, Max(l - 1, MIN_MATCH)) && nextPriceBump == NextBump(Max(l - 1, MIN_MATCH))
      {
        if l > MIN_MATCH { PriceBump(0, l - 1); }
        if l == nextPriceBump {
          price := price + 1;
          nextPriceBump := nextPriceBump + 255;
        }
        opt := opt[l := OptEntry(price, off, l, 0)];
        l := l + 1;
      }
    }

    /** Offers one priced match end to the table t; settled positions stay. */
    method Relax(ghost t: seq<OptEntry>, cur: nat, last0: nat, start: nat, off: nat, l: nat, price: int) returns (last: nat)
      requires |opt| == OPT_SIZE && last0 + 1 == |t| <= OPT_WINDOW && opt[..last0 + 1] == t
      requires start <= cur <= last0 && start + l < OPT_WINDOW && price == MatchEntry(t, start, off, l).price
      modifies this`opt
      ensures |opt| == OPT_SIZE && last + 1 == |Offered(t, cur, start, off, l)| && opt[..last + 1] == Offered(t, cur, start, off, l)
    {
      hide MatchEntry;
      last := last0;
      MatchEntryIs(t, start, off, l);
      var pos := start + l;
      if pos <= cur { return; }
      if pos > last {
        while last + 1 < pos
          invariant last0 <= last < pos && |opt| == OPT_SIZE && opt[..last + 1] == t + seq(last - last0, _ => OPEN)
        {
          opt := opt[last + 1 := OPEN];
          last := last + 1;
        }
        opt := opt[pos := OptEntry(price, off, l, 0)];
        last := pos;
      } else if price < opt[pos].price {
        opt := opt[pos := OptEntry(price, off, l, 0)];
      }
    }

    /** Prices every usable length of a match that starts at a settled position. */
    method PriceMatch(ghost src: seq<byte>, ghost ip: nat, ghost t0: seq<OptEntry>, cur: nat, last0: nat, start: nat, off: nat, ml: nat)
      returns (last: nat)
      requires |opt| == OPT_SIZE && last0 + 1 == |t0| <= OPT_WINDOW && opt[..last0 + 1] == t0
      requires Priced(src, ip, t0, cur) && start <= cur && start + ml < OPT_WINDOW
      requires MatchAt(src, ip + start, ip + start - off, ml) && ip + start + MF_LIMIT <= |src|
      modifies this`opt
      ensures |opt| == OPT_SIZE && cur <= last
      ensures last + 1 == |OfferedAll(t0, cur, start, off, MIN_MATCH, ml)| && opt[..last + 1] == OfferedAll(t0, cur, start, off, MIN_MATCH, ml)
    {
      hide Priced, Offered, SeqPrice, Repeats, MatchEntry;
      PricedSize(src, ip, t0, cur);
      AnchorPriced(src, ip, t0, cur, start);
      ghost var t := t0;
      last := last0;
      assert opt[start] == t0[start];
      var litlen := if opt[start].mlen == 1 then opt[start].litlen else 0;
      assert opt[start - litlen] == t0[start - litlen];
      var base := opt[start - litlen].price;
      var price := base + SeqPrice(litlen, MIN_MATCH);
      var nextPriceBump := 15 + MIN_MATCH;
      var l := MIN_MATCH;
      while l <= ml
        invariant MIN_MATCH <= l && |opt| == OPT_SIZE && last + 1 == |t| && cur < |t| <= OPT_WINDOW && opt[..last + 1] == t
        invariant Priced(src, ip, t, cur) && t[..cur + 1] == t0[..cur + 1]
        invariant OfferedAll(t, cur, start, off, l, ml) == OfferedAll(t0, cur, start, off, MIN_MATCH, ml)
        invariant price == base + SeqPrice(litlen, Max(l - 1, MIN_MATCH)) && nextPriceBump == NextBump(Max(l - 1, MIN_MATCH))
      {
        if l > MIN_MATCH { PriceBump(litlen, l - 1); }
        if l == nextPriceBump {
          price := price + 1;
          nextPriceBump := nextPriceBump + 255;
        }
        MatchShorter(src, ip + start, ip + start - off, ml, l);
        OfferedPriced(src, ip, t, cur, start, off, l);
        MatchEntrySame(t0, t, cur, start, off, l);
        last := Relax(t, cur, last, start, off, l, price);
        t := Offered(t, cur, start, off, l);
        l := l + 1;
      }
    }

    /** The literal step to cur. */
    method LiteralStep(ghost t: seq<OptEntry>, cur: nat, ghost last: nat)
      requires |opt| == OPT_SIZE && 0 < cur <= last && last + 1 == |t| <= OPT_WINDOW && opt[..last + 1] == t
      modifies this`opt
      ensures |opt| == OPT_SIZE && opt[..last + 1] == Settled(t, cur)
    {
      assert opt[cur - 1] == t[cur - 1] && opt[cur] == t[cur];
      if opt[cur - 1].price < INF {
        var e := LiteralEntry(opt, cur);
        if e.price < opt[cur].price { opt := opt[cur := e]; }
      }
    }

    /** Settles position cur and prices the widest match around it. */
    method SettleNext(src: seq<byte>, ip: nat, ghost t: seq<OptEntry>, cur: nat, last0: nat) returns (last: nat, done: bool)
      requires Ready(src) && |opt| == OPT_SIZE && 0 < cur <= last0 && last0 + 1 == |t| <= OPT_WINDOW && opt[..last0 + 1] == t
      requires ip + MF_LIMIT < |src| && Priced(src, ip, t, cur - 1)
      modifies this`opt, head, chain
      ensures Ready(src) && |opt| == OPT_SIZE && last < OPT_WINDOW
      ensures (Batch(State(), opt[..last + 1]), done) == BatchRound(src, ip, old(State()), t, cur)
    {
      hide Priced, Settled, Inserted, Wider, Links.For, Repeats, OfferedAll;
      LiteralSettles(src, ip, t, cur);
      LiteralStep(t, cur, last0);
      ghost var settled := Settled(t, cur);
      last, done := last0, false;
      if cur == last || ip + cur >= |src| - MF_LIMIT { return; }
      Insert(src, ip + cur);
      var w := WiderMatch(src, ip + cur, ip);
      if w.len == 0 { return; }
      var start := w.start - ip;
      if w.len >= SUFFICIENT_LEN || start + w.len >= OPT_WINDOW {
        assert opt[..cur + 1] == settled[..cur + 1];
        return cur, true;
      }
      assert opt[start] == settled[start];
      if opt[start].price >= INF { return; }
      last := PriceMatch(src, ip, settled, cur, last, start, w.start - w.ref, w.len);
    }

    /** Runs the dynamic program over the batch a match opens. */
    method RunBatch(src: seq<byte>, m: Match) returns (last: nat)
      requires Ready(src) && |opt| == OPT_SIZE && m.start + MF_LIMIT < |src| && m.len < SUFFICIENT_LEN
      requires MatchAt(src, m.start, m.ref, m.len)
      modifies this`opt, head, chain
      ensures Ready(src) && |opt| == OPT_SIZE && last + 1 == |BatchAt(src, old(State()), m).opt|
      ensures Batch(State(), opt[..last + 1]) == BatchAt(src, old(State()), m)
    {
      hide Priced, Links.For, Seeded, Repeats, BatchRound;
      SeededPriced(src, m.start, m.ref, m.len);
      SeedBatch(m.start - m.ref, m.len);
      ghost var t := Seeded(m.start - m.ref, m.len);
      last := m.len;
      var cur := 1;
      while cur <= last
        invariant Ready(src) && |opt| == OPT_SIZE && 0 < cur <= last + 1 == |t| <= OPT_WINDOW && opt[..last + 1] == t
        invariant Priced(src, m.start, t, cur - 1) && BatchFrom(src, m.start, State(), t, cur) == BatchAt(src, old(State()), m)
        decreases OPT_WINDOW - cur
      {
        RoundPriced(src, m.start, State(), t, cur);
        ghost var b := BatchRound(src, m.start, State(), t, cur).0;
        var done;
        last, done := SettleNext(src, m.start, t, cur, last);
        if done { return; }
        t, cur := b.opt, cur + 1;
      }
    }

    /** The last position of the batch where a sequence ends; later literals wait. */
    method LastSequenceEnd(ghost t: seq<OptEntry>, last: nat) returns (endPos: nat)
      requires last + 1 == |t| <= |opt| && opt[..last + 1] == t
      ensures endPos == LastEnd(t, last)
    {
      endPos := last;
      while endPos > 0 && opt[endPos].mlen == 1
        invariant endPos <= last && LastEnd(t, endPos) == LastEnd(t, last)
      {
        assert opt[endPos] == t[endPos];
        endPos := endPos - 1;
      }
      assert opt[endPos] == t[endPos];
    }

    /** Follows the entries back from endPos; steps come out last first. */
    method Backtrack(ghost src: seq<byte>, ghost ip: nat, ghost t: seq<OptEntry>, endPos: nat) returns (steps: seq<Step>)
      requires |t| <= |opt| && opt[..|t|] == t && Priced(src, ip, t, |t| - 1) && Anchored(t, endPos)
      ensures Reversed(steps, Path(t, endPos))
    {
      steps := [];
      var pos: int := endPos;
      ghost var rest: seq<Step> := [];
      while pos > 0
        invariant 0 <= pos <= endPos && 0 <= AnchorOf(t, pos) <= pos
        invariant Path(t, endPos) == Path(t, AnchorOf(t, pos)) + rest
        invariant Reversed(steps, rest)
      {
        assert EntryOk(src, ip, t, pos);
        assert opt[pos] == t[pos];
        var ent := opt[pos];
        AnchorPriced(src, ip, t, |t| - 1, pos);
        if ent.mlen == 1 {
          pos := pos - ent.litlen;
        } else {
          AnchorPriced(src, ip, t, |t| - 1, pos - ent.mlen);
          ReversedSnoc(steps, rest, Step(pos - ent.mlen, ent.mlen, ent.off));
          steps := steps + [Step(pos - ent.mlen, ent.mlen, ent.off)];
          rest := [Step(pos - ent.mlen, ent.mlen, ent.off)] + rest;
          pos := pos - ent.mlen;
        }
      }
    }

    /** Emits the j-th sequence of a backtracked parse. */
    method EmitStep(src: seq<byte>, dst: array<byte>, limit: int, d: nat, ghost p0: Plan, anchor: nat, ip: nat, step: Step,
                    ghost path: seq<Step>, ghost j: nat, ghost plan: Plan)
      returns (r: nat, ok: bool)
      requires p0.anchor <= ip && Tiles(src, ip, path) && j < |path| && step == path[j]
      requires Tiles(src, ip, path[..j]) && Tiles(src, ip, path[..j + 1])
      requires Written(src, dst, d, TakenPath(src, ip, p0, path[..j])) && anchor == TakenPath(src, ip, p0, path[..j]).anchor
      requires plan.Ok(src) && Extends(TakenPath(src, ip, p0, path), plan)
      modifies dst
      ensures ip + step.start + step.mlen == TakenPath(src, ip, p0, path[..j + 1]).anchor
      ensures if ok then Written(src, dst, r, TakenPath(src, ip, p0, path[..j + 1])) && r <= limit
              else Refused(src, plan, dst.Length, limit)
    {
      hide Repeats, Plan.Ok, EncodeSequences, Refused, Tiles, Written;
      TilesAt(src, ip, path, j);
      ghost var p := TakenPath(src, ip, p0, path[..j]);
      var m := MatchOf(ip, step);
      assert path[..j + 1][..j] == path[..j];
      TakenExtends(src, p, m);
      r, ok := CommitWithin(src, dst, limit, d, p, anchor, m);
      if !ok {
        TakenPathFront(src, ip, p0, path, j + 1);
        PlanRefused(src, Taken(src, p, m), TakenPath(src, ip, p0, path), plan, dst.Length, limit);
      }
    }

    /** Emits a backtracked parse in order. */
    method EmitBatch(src: seq<byte>, dst: array<byte>, limit: int, d0: nat, ghost p0: Plan, anchor0: nat, ip: nat,
                     steps: seq<Step>, ghost path: seq<Step>, ghost plan: Plan)
      returns (d: nat, anchor: nat, ok: bool)
      requires plan.Ok(src) && Follows(src, dst, d0, p0, anchor0, plan, limit, true) && anchor0 <= ip
      requires Tiles(src, ip, path) && Reversed(steps, path) && Extends(TakenPath(src, ip, p0, path), plan)
      modifies dst
      ensures Follows(src, dst, d, TakenPath(src, ip, p0, path), anchor, plan, limit, ok)
    {
      hide Repeats, Plan.Ok, EncodeSequences, Refused, Tiles, Written, Reversed, Path, TakenPath;
      ReversedSize(steps, path);
      d, anchor, ok := d0, anchor0, true;
      var j := 0;
      TakenNone(src, ip, p0, path);
      while j < |steps|
        invariant 0 <= j <= |path| && Tiles(src, ip, path[..j])
        invariant Follows(src, dst, d, TakenPath(src, ip, p0, path[..j]), anchor, plan, limit, true)
      {
        ReversedAt(steps, path, j);
        TilesFront(src, ip, path, j + 1);
        var step := steps[|steps| - 1 - j];
        d, ok := EmitStep(src, dst, limit, d, p0, anchor, ip, step, path, j, plan);
        if !ok { return; }
        anchor := ip + step.start + step.mlen;
        j := j + 1;
      }
      assert path[..j] == path;
    }

    /** Prices one batch and emits its parse; with no literals pending, it writes
        exactly the price of the batch's last sequence end. */
    method CompressBatch(src: seq<byte>, dst: array<byte>, limit: int, d0: nat, ghost p0: Plan, anchor0: nat, m: Match, ghost plan: Plan)
      returns (d: nat, anchor: nat, endPos: nat, ok: bool)
      requires Ready(src) && Apart(dst) && |opt| == OPT_SIZE && m.start + MF_LIMIT < |src| && m.len < SUFFICIENT_LEN
      requires MatchAt(src, m.start, m.ref, m.len) && anchor0 <= m.start
      requires plan.Ok(src) && Follows(src, dst, d0, p0, anchor0, plan, limit, true)
      requires BatchTakes(src, State(), m) && Extends(BatchTaken(src, State(), p0, m), plan)
      modifies this`opt, head, chain, dst
      ensures Ready(src) && |opt| == OPT_SIZE && endPos < OPT_WINDOW
      ensures State() == BatchAt(src, old(State()), m).links && endPos == BatchEnd(src, old(State()), m)
      ensures Follows(src, dst, d, BatchTaken(src, old(State()), p0, m), anchor, plan, limit, ok)
      ensures ok && anchor0 == m.start ==> d == d0 + opt[endPos].price
    {
      hide Repeats, Plan.Ok, EncodeSequences, Refused, Tiles, Reversed, Path, TakenPath, BatchAt, Priced, Links.For, LastEnd, Cost;
      ghost var k := State();
      BatchPath(src, k, m);
      ghost var t := BatchAt(src, k, m).opt;
      var last := RunBatch(src, m);
      endPos := LastSequenceEnd(t, last);
      var steps := Backtrack(src, m.start, t, endPos);
      ghost var path := Path(t, endPos);
      TakenPathOk(src, m.start, p0, path);
      d, anchor, ok := EmitBatch(src, dst, limit, d0, p0, anchor0, m.start, steps, path, plan);
      assert opt[endPos] == t[endPos];
    }

    method OptAdvance(src: seq<byte>, ip: nat, consumed: nat) returns (next: nat)
      requires Ready(src) && MF_LIMIT <= |src|
      modifies head, chain
      ensures Ready(src) && next == ip + consumed && State() == Advanced(src, ip, consumed, old(State()))
    {
      next := ip + consumed;
      InsertRange(src, Max(ip + 1, next - MAX_DISTANCE), Min(next, |src| - MF_LIMIT));
    }

    /** Takes a match that is too long to optimise around. */
    method TakeLong(src: seq<byte>, dst: array<byte>, limit: int, d0: nat, ghost p: Plan, anchor: nat, m: Match, ghost plan: Plan)
      returns (d: nat, ok: bool)
      requires plan.Ok(src) && Follows(src, dst, d0, p, anchor, plan, limit, true) && anchor <= m.start
      requires m.start + MF_LIMIT <= |src| && MatchAt(src, m.start, m.ref, m.len) && Extends(Taken(src, p, m), plan)
      modifies dst
      ensures Follows(src, dst, d, Taken(src, p, m), m.start + m.len, plan, limit, ok)
    {
      hide Repeats, Plan.Ok, EncodeSequences, Refused;
      d, ok := CommitWithin(src, dst, limit, d0, p, anchor, m);
      if !ok { PlanRefused(src, Taken(src, p, m), Taken(src, p, m), plan, dst.Length, limit); }
    }

    /** Handles position ip0 as the plan does. */
    method OptRound(src: seq<byte>, dst: array<byte>, limit: int, d0: nat, ghost p0: Plan, anchor0: nat, ip0: nat, ghost plan: Plan)
      returns (d: nat, ghost p: Plan, anchor: nat, ip: nat, ok: bool)
      requires Ready(src) && Apart(dst) && |opt| == OPT_SIZE && ip0 + MF_LIMIT < |src| && anchor0 <= ip0
      requires plan.Ok(src) && Follows(src, dst, d0, p0, anchor0, plan, limit, true)
      requires OptFrom(src, State(), p0, ip0) == plan
      modifies this`opt, head, chain, dst
      ensures Ready(src) && |opt| == OPT_SIZE && Follows(src, dst, d, p, anchor, plan, limit, ok)
      ensures ok ==> anchor <= ip && ip0 < ip && OptFrom(src, State(), p, ip) == plan
    {
      hide Repeats, Plan.Ok, EncodeSequences, Refused, OptFrom, Longest, Advanced, BatchAt, BatchEnd, BatchTaken, BatchTakes, Written, Links.For, Tiles, Path, Priced;
      WrittenOk(src, dst, d0, p0);
      OptStep(src, State(), p0, ip0);
      p := RoundAt(src, State(), p0, ip0).plan;
      d, anchor, ip, ok := d0, anchor0, ip0, true;
      var m := ForwardMatch(src, ip);
      if m.len == 0 {
        ip := ip + 1;
        if ip < |src| - MF_LIMIT { Insert(src, ip); }
        return;
      }
      var consumed;
      if m.len >= SUFFICIENT_LEN {
        d, ok := TakeLong(src, dst, limit, d, p0, anchor, m, plan);
        if !ok { return; }
        consumed := m.len;
        anchor := ip + m.len;
      } else {
        BatchFacts(src, State(), m);
        d, anchor, consumed, ok := CompressBatch(src, dst, limit, d, p0, anchor, m, plan);
        if !ok { return; }
        if consumed == 0 { consumed := 1; }
      }
      ip := OptAdvance(src, ip, consumed);
    }

    /** Compresses src by the chunked optimal parse, giving up once the committed bytes
        exceed limit.  What is written is the optimal plan, whole.  n is 0 exactly when
        the plan is longer than dst or its sequences alone exceed limit; withinLimit
        holds exactly when the whole plan meets both. */
    method CompressBlockOptLimit(src: seq<byte>, dst: array<byte>, limit: int) returns (n: nat, withinLimit: bool)
      requires Valid() && Apart(dst)
      modifies this, head, chain, dst
      ensures Valid() && Apart(dst) && (chain == old(chain) || fresh(chain))
      ensures OptPlan(src, old(chain[..])).Ok(src)
      ensures var plan := OptPlan(src, old(chain[..])); var block := EncodeBlock(plan.Complete(src));
        n == (if Refused(src, plan, dst.Length, limit) then 0 else |block|) && (n != 0 ==> n <= dst.Length && dst[..n] == block)
        && (withinLimit <==> |block| <= Min(limit, dst.Length))
      ensures n != 0 ==> Encodes(dst[..n], src)
    {
      hide Repeats, Plan.Ok, EncodeSequences, OptFrom, Inserted, Written, Links.For, EncodeBlock, Encodes;
      OptPlanOk(src, chain[..]);
      ghost var plan := OptPlan(src, chain[..]);
      RefusedWithin(src, plan, dst.Length, limit);
      ghost var p := START;
      StartWritten(src, dst);
      if |src| < MF_LIMIT + MIN_MATCH {
        n := Finish(src, dst, 0, START, 0);
        return n, n > 0 && n <= limit;
      }
      Reset(src);
      if opt == [] { opt := seq(OPT_SIZE, _ => OptEntry(0, 0, 0, 0)); }
      var mfLimit := |src| - MF_LIMIT;
      var d: nat, anchor: nat, ip: nat := 0, 0, 0;
      Insert(src, 0);
      while ip < mfLimit
        invariant Ready(src) && Apart(dst) && |opt| == OPT_SIZE && (chain == old(chain) || fresh(chain))
        invariant Follows(src, dst, d, p, anchor, plan, limit, true) && anchor <= ip && OptFrom(src, State(), p, ip) == plan
        decreases mfLimit - ip
      {
        var ok;
        d, p, anchor, ip, ok := OptRound(src, dst, limit, d, p, anchor, ip, plan);
        if !ok { return 0, false; }
      }
      OptDone(src, State(), p, ip);
      WrittenSize(src, dst, d, p);
      n := Finish(src, dst, d, p, anchor);
      withinLimit := n > 0 && n <= limit;
    }

    lemma {:induction false} WrittenSize(src: seq<byte>, dst: array<byte>, d: nat, p: Plan)
      requires Written(src, dst, d, p)
      ensures d == |EncodeSequences(p.sequences)|
    {
    }

    method CompressBlockOpt(src: seq<byte>, dst: array<byte>) returns (n: nat)
      requires Valid() && Apart(dst)
      modifies this, head, chain, dst
      ensures Valid() && Apart(dst) && (chain == old(chain) || fresh(chain))
      ensures OptPlan(src, old(chain[..])).Ok(src)
      ensures var block := EncodeBlock(OptPlan(src, old(chain[..])).Complete(src));
        n == (if dst.Length < |block| then 0 else |block|) && (n != 0 ==> dst[..n] == block)
      ensures n != 0 ==> Encodes(dst[..n], src)
    {
      hide Plan.Ok, EncodeSequences, Refused, EncodeBlock, Encodes, OptPlan;
      ghost var plan := OptPlan(src, chain[..]);
      var within;
      n, within := CompressBlockOptLimit(src, dst, dst.Length);
      RefusedWhole(src, plan, dst.Length);
    }
  }
}
