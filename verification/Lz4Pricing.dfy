/**
 The dynamic program behind the optimal parse.  Its table has an entry per position
 of the batch, up to the furthest one with a priced parse; an entry prices the
 cheapest parse found so far up to its position, and following the entries back
 gives the sequences to emit.
 */
module Lz4Pricing {
  import opened Bytes
  import opened Lz4Format
  import opened Lz4Emit
  import opened Lz4Finder

  const OPT_WINDOW := 4096
  const SUFFICIENT_LEN := 4095
  const OPT_SIZE := 8192          // OPT_WINDOW + SUFFICIENT_LEN + 1
  const INF := 0x4000_0000

  /** mlen is 1 for a literal step, whose run of litlen literals ends here. */
  datatype OptEntry = OptEntry(price: int, off: int, mlen: int, litlen: int)

  function LitRunPrice(litlen: int): (r: int) {
    if litlen >= 15 then litlen + 1 + (litlen - 15) / 255 else litlen
  }

  function SeqPrice(litlen: int, mlen: int): (r: int) {
    3 + LitRunPrice(litlen) + (if mlen >= 15 + MIN_MATCH then 1 + (mlen - (15 + MIN_MATCH)) / 255 else 0)
  }

  /** The price of a sequence is the number of bytes it encodes to. */
  lemma {:induction false} PriceIsSize(s: Sequence)
    requires s.Encodable()
    ensures SeqPrice(|s.literals|, s.matchLen) == |EncodeSequence(s)|
  {
    EncodeSequenceSize(s);
  }

  /** Growing a match by one byte costs a byte exactly at the extension bumps. */
  lemma {:induction false} PriceBump(litlen: int, mlen: int)
    requires mlen >= MIN_MATCH
    ensures SeqPrice(litlen, mlen + 1) == SeqPrice(litlen, mlen)
      + (if mlen + 1 == NextBump(mlen) then 1 else 0)
    ensures NextBump(mlen + 1) == NextBump(mlen) + (if mlen + 1 == NextBump(mlen) then 255 else 0)
  {
  }

  /** The first length beyond mlen whose encoding is a byte longer. */
  function NextBump(mlen: int): (r: int)
    requires mlen >= MIN_MATCH
  {
    15 + MIN_MATCH + 255 * LengthCost(mlen - MIN_MATCH)
  }

  // ---- the table -------------------------------------------------------------

  /** A sequence, or the batch start, ends at q. */
  predicate Anchored(opt: seq<OptEntry>, q: int) {
    0 <= q < |opt| && (q == 0 || opt[q].mlen >= MIN_MATCH)
  }

  /** Where the literal run ending at p begins. */
  function AnchorOf(opt: seq<OptEntry>, p: int): (q: int)
    requires 0 <= p < |opt|
  {
    if opt[p].mlen == 1 then p - opt[p].litlen else p
  }

  ghost predicate LiteralOk(opt: seq<OptEntry>, p: int)
    requires 0 <= p < |opt|
  {
    var e := opt[p];
    e.mlen == 1 && 1 <= e.litlen <= p && Anchored(opt, p - e.litlen)
    && e.price == opt[p - e.litlen].price + LitRunPrice(e.litlen)
  }

  ghost predicate MatchOk(src: seq<byte>, ip: int, opt: seq<OptEntry>, p: int)
    requires 0 <= p < |opt|
  {
    var e := opt[p];
    var start := p - e.mlen;
    MIN_MATCH <= e.mlen <= p && MatchAt(src, ip + start, ip + start - e.off, e.mlen)
    && ip + start + MF_LIMIT <= |src|
    && var a := AnchorOf(opt, start);
       a <= start && Anchored(opt, a) && e.price == opt[a].price + SeqPrice(start - a, e.mlen)
  }

  ghost predicate EntryOk(src: seq<byte>, ip: int, opt: seq<OptEntry>, p: int) {
    0 < p < |opt| && 0 <= opt[p].price <= 2 * p && (LiteralOk(opt, p) || MatchOk(src, ip, opt, p))
  }

  const OPEN := OptEntry(INF, 0, 1, 0)

  /** Positions up to cur are settled; those beyond are open or hold a match that
      starts at a settled position. */
  ghost predicate Priced(src: seq<byte>, ip: int, opt: seq<OptEntry>, cur: int) {
    0 <= cur < |opt| <= OPT_WINDOW && opt[0] == OptEntry(0, 0, 1, 0)
    && (forall p :: 0 < p <= cur ==> EntryOk(src, ip, opt, p))
    && (forall p :: cur < p < |opt| ==> Pending(src, ip, opt, cur, p))
  }

  ghost predicate Pending(src: seq<byte>, ip: int, opt: seq<OptEntry>, cur: int, p: int)
    requires 0 <= p < |opt|
  {
    opt[p] == OPEN || (EntryOk(src, ip, opt, p) && MIN_MATCH <= opt[p].mlen && p - opt[p].mlen <= cur)
  }

  /** Entries depend only on settled positions, so changes beyond them are harmless. */
  lemma {:induction false} EntryStable(src: seq<byte>, ip: int, opt: seq<OptEntry>, opt': seq<OptEntry>, cur: int, p: int)
    requires EntryOk(src, ip, opt, p) && 0 <= cur < |opt| && cur < |opt'| && p < |opt'|
    requires forall q :: 0 <= q <= cur ==> opt'[q] == opt[q]
    requires opt'[p] == opt[p] && (p <= cur || (MIN_MATCH <= opt[p].mlen && p - opt[p].mlen <= cur))
    ensures EntryOk(src, ip, opt', p)
  {
  }

  /** A table that keeps the settled entries stays priced when each entry beyond is
      kept, open, or a pending one of its own. */
  lemma {:induction false} PricedStable(src: seq<byte>, ip: int, opt: seq<OptEntry>, opt': seq<OptEntry>, cur: int)
    requires Priced(src, ip, opt, cur) && cur < |opt'| <= OPT_WINDOW
    requires forall q :: 0 <= q <= cur ==> opt'[q] == opt[q]
    requires forall p :: cur < p < |opt'| ==>
      (p < |opt| && opt'[p] == opt[p]) || Pending(src, ip, opt', cur, p)
    ensures Priced(src, ip, opt', cur)
  {
    hide EntryOk;
    forall p | 0 < p <= cur ensures EntryOk(src, ip, opt', p) {
      EntryStable(src, ip, opt, opt', cur, p);
    }
    forall p | cur < p < |opt'| ensures Pending(src, ip, opt', cur, p) {
      if p < |opt| && opt'[p] == opt[p] {
        assert Pending(src, ip, opt, cur, p);
        if opt[p] != OPEN { EntryStable(src, ip, opt, opt', cur, p); }
      }
    }
  }

  // ---- seeding -----------------------------------------------------------------

  function SeedEntry(off: nat, p: nat): (e: OptEntry) {
    if p == 0 then OptEntry(0, 0, 1, 0) else if p < MIN_MATCH then OPEN else OptEntry(SeqPrice(0, p), off, p, 0)
  }

  /** The table that prices the first match's lengths; shorter positions are open. */
  function Seeded(off: nat, ml: nat): (opt: seq<OptEntry>)
    ensures |opt| == ml + 1
  {
    seq(ml + 1, p requires 0 <= p => SeedEntry(off, p))
  }

  lemma {:induction false} SeededPriced(src: seq<byte>, ip: int, ref: int, ml: nat)
    requires MatchAt(src, ip, ref, ml) && ip + MF_LIMIT <= |src| && ml < SUFFICIENT_LEN
    ensures Priced(src, ip, Seeded(ip - ref, ml), 0)
  {
    hide Repeats;
    var opt := Seeded(ip - ref, ml);
    forall p | 0 < p < |opt| ensures Pending(src, ip, opt, 0, p) {
      if p >= MIN_MATCH {
        MatchShorter(src, ip, ref, ml, p);
        assert MatchOk(src, ip, opt, p);
      }
    }
  }

  // ---- the literal step ------------------------------------------------------

  function LiteralEntry(opt: seq<OptEntry>, cur: int): (e: OptEntry)
    requires 0 < cur < |opt|
  {
    var prev := opt[cur - 1];
    var litlen := if prev.mlen == 1 then prev.litlen + 1 else 1;
    var base := if prev.mlen == 1 then prev.price - LitRunPrice(prev.litlen) else prev.price;
    OptEntry(base + LitRunPrice(litlen), 0, 1, litlen)
  }

  /** The table after the literal step to cur. */
  function Settled(opt: seq<OptEntry>, cur: int): (r: seq<OptEntry>)
    requires 0 < cur < |opt|
    ensures |r| == |opt|
  {
    var e := LiteralEntry(opt, cur);
    if opt[cur - 1].price < INF && e.price < opt[cur].price then opt[cur := e] else opt
  }

  lemma {:induction false} LiteralEntryOk(src: seq<byte>, ip: int, opt: seq<OptEntry>, cur: int)
    requires Priced(src, ip, opt, cur - 1) && cur < |opt|
    ensures 0 < cur && LiteralEntry(opt, cur).price <= 2 * cur
    ensures EntryOk(src, ip, opt[cur := LiteralEntry(opt, cur)], cur)
  {
    var e := LiteralEntry(opt, cur);
    var a := cur - e.litlen;
    assert Anchored(opt, a) && e.price == opt[a].price + LitRunPrice(e.litlen) && 1 <= e.litlen <= cur by {
      if cur - 1 > 0 { assert EntryOk(src, ip, opt, cur - 1); }
    }
    assert 0 <= opt[a].price <= 2 * a by {
      if a > 0 { assert EntryOk(src, ip, opt, a); }
    }
    assert LiteralOk(opt[cur := e], cur);
  }

  /** The literal step settles position cur, at the cheaper of one more literal and the
      cheapest match that ends there. */
  lemma {:induction false} LiteralSettles(src: seq<byte>, ip: int, opt: seq<OptEntry>, cur: int)
    requires Priced(src, ip, opt, cur - 1) && cur < |opt|
    ensures 0 < cur && Priced(src, ip, Settled(opt, cur), cur)
    ensures Settled(opt, cur)[cur].price == Min(LiteralEntry(opt, cur).price, opt[cur].price)
    ensures forall q :: 0 <= q < |opt| && q != cur ==> Settled(opt, cur)[q] == opt[q]
  {
    LiteralEntryOk(src, ip, opt, cur);
    assert opt[cur - 1].price < INF by { if cur > 1 { assert EntryOk(src, ip, opt, cur - 1); } }
    assert Pending(src, ip, opt, cur - 1, cur);
    var opt' := Settled(opt, cur);
    forall p | 0 < p < cur ensures EntryOk(src, ip, opt', p) {
      EntryStable(src, ip, opt, opt', cur - 1, p);
    }
    forall p | cur < p < |opt| ensures Pending(src, ip, opt', cur, p) {
      assert Pending(src, ip, opt, cur - 1, p);
      if opt[p] != OPEN { EntryStable(src, ip, opt, opt', cur - 1, p); }
    }
  }

  // ---- the match step --------------------------------------------------------

  function MatchEntry(opt: seq<OptEntry>, start: int, off: int, mlen: int): (e: OptEntry)
    requires 0 <= start < |opt|
  {
    var a := AnchorOf(opt, start);
    OptEntry((if 0 <= a < |opt| then opt[a].price else 0) + SeqPrice(start - a, mlen), off, mlen, 0)
  }

  lemma {:induction false} MatchEntryIs(opt: seq<OptEntry>, start: int, off: int, mlen: int)
    requires 0 <= start < |opt|
    ensures MatchEntry(opt, start, off, mlen) == OptEntry(MatchEntry(opt, start, off, mlen).price, off, mlen, 0)
  {
  }

  /** A match is priced by settled entries alone. */
  lemma {:induction false} MatchEntrySame(opt: seq<OptEntry>, opt': seq<OptEntry>, cur: int, start: int, off: int, mlen: int)
    requires 0 <= start <= cur < |opt| && cur < |opt'| && opt'[..cur + 1] == opt[..cur + 1] && 0 <= AnchorOf(opt, start) <= start
    ensures MatchEntry(opt', start, off, mlen).price == opt[AnchorOf(opt, start)].price + SeqPrice(start - AnchorOf(opt, start), mlen)
  {
    assert forall q :: 0 <= q <= cur ==> opt'[q] == opt'[..cur + 1][q] == opt[q];
  }

  /** The table after a match end is offered to it; settled positions stay, and
      positions in between are open. */
  function Offered(opt: seq<OptEntry>, cur: int, start: int, off: int, l: nat): (r: seq<OptEntry>)
    requires 0 <= start <= cur < |opt|
    ensures |r| == Max(|opt|, start + l + 1)
  {
    var pos, e := start + l, MatchEntry(opt, start, off, l);
    if pos >= |opt| then opt + seq(pos - |opt|, _ => OPEN) + [e]
    else if pos > cur && e.price < opt[pos].price then opt[pos := e] else opt
  }

  /** The table after the lengths l..ml of a match have been offered. */
  function OfferedAll(opt: seq<OptEntry>, cur: int, start: int, off: int, l: nat, ml: nat): (r: seq<OptEntry>)
    requires 0 <= start <= cur < |opt|
    ensures |r| == if l > ml then |opt| else Max(|opt|, start + ml + 1)
    decreases if l <= ml then ml - l + 1 else 0
  {
    if l > ml then opt else OfferedAll(Offered(opt, cur, start, off, l), cur, start, off, l + 1, ml)
  }

  lemma {:induction false} AnchorPriced(src: seq<byte>, ip: int, opt: seq<OptEntry>, cur: int, start: int)
    requires Priced(src, ip, opt, cur) && 0 <= start <= cur
    ensures var a := AnchorOf(opt, start);
      0 <= a <= start && Anchored(opt, a) && 0 <= opt[a].price <= 2 * a
  {
    var a := AnchorOf(opt, start);
    if start > 0 {
      assert EntryOk(src, ip, opt, start);
      if a > 0 { assert EntryOk(src, ip, opt, a); }
    }
  }

  /** A priced match is a valid pending entry wherever its end lies beyond cur. */
  lemma {:induction false} MatchEntryPending(src: seq<byte>, ip: int, opt: seq<OptEntry>, opt': seq<OptEntry>, cur: int,
                                             start: int, off: int, mlen: int)
    requires Priced(src, ip, opt, cur) && 0 <= start <= cur < start + mlen < |opt'| <= OPT_WINDOW
    requires MatchAt(src, ip + start, ip + start - off, mlen) && ip + start + MF_LIMIT <= |src|
    requires forall q :: 0 <= q <= cur ==> opt'[q] == opt[q]
    requires opt'[start + mlen] == MatchEntry(opt, start, off, mlen)
    ensures Pending(src, ip, opt', cur, start + mlen)
  {
    AnchorPriced(src, ip, opt, cur, start);
    assert AnchorOf(opt', start) == AnchorOf(opt, start);
    assert MatchOk(src, ip, opt', start + mlen);
  }

  /** One more priced match end keeps the table priced and the settled part as it was; an
      open position gets the cheaper entry. */
  lemma {:induction false} OfferedPriced(src: seq<byte>, ip: int, opt: seq<OptEntry>, cur: int, start: int, off: int, l: nat)
    requires Priced(src, ip, opt, cur) && 0 <= start <= cur && start + l < OPT_WINDOW
    requires MatchAt(src, ip + start, ip + start - off, l) && ip + start + MF_LIMIT <= |src|
    ensures var r := Offered(opt, cur, start, off, l);
      Priced(src, ip, r, cur) && forall q :: 0 <= q <= cur ==> r[q] == opt[q]
    ensures var r, pos, price := Offered(opt, cur, start, off, l), start + l, MatchEntry(opt, start, off, l).price;
      pos > cur ==> r[pos].price == if pos < |opt| then Min(price, opt[pos].price) else price
  {
    hide EntryOk, MatchAt;
    var pos, r := start + l, Offered(opt, cur, start, off, l);
    if pos > cur && r[pos] == MatchEntry(opt, start, off, l) {
      MatchEntryPending(src, ip, opt, r, cur, start, off, l);
    }
    PricedStable(src, ip, opt, r, cur);
  }

  lemma {:induction false} OfferedAllPriced(src: seq<byte>, ip: int, opt: seq<OptEntry>, cur: int, start: int, off: int, l: nat, ml: nat)
    requires Priced(src, ip, opt, cur) && 0 <= start <= cur && start + ml < OPT_WINDOW && MIN_MATCH <= l
    requires MatchAt(src, ip + start, ip + start - off, ml) && ip + start + MF_LIMIT <= |src|
    ensures Priced(src, ip, OfferedAll(opt, cur, start, off, l, ml), cur)
    decreases if l <= ml then ml - l + 1 else 0
  {
    hide Priced, Offered, MatchAt;
    PricedSize(src, ip, opt, cur);
    if l <= ml {
      MatchShorter(src, ip + start, ip + start - off, ml, l);
      OfferedPriced(src, ip, opt, cur, start, off, l);
      OfferedAllPriced(src, ip, Offered(opt, cur, start, off, l), cur, start, off, l + 1, ml);
    }
  }

  lemma {:induction false} PricedSize(src: seq<byte>, ip: int, opt: seq<OptEntry>, cur: int)
    requires Priced(src, ip, opt, cur)
    ensures 0 <= cur < |opt| <= OPT_WINDOW
  {
  }

  // ---- one batch ----------------------------------------------------------------

  /** The chains and the table after a batch. */
  datatype Batch = Batch(links: Links, opt: seq<OptEntry>)

  /** One round of the dynamic program: a literal step to cur, then the lengths of the
      widest match around it.  A huge match or the window bound ends the batch there. */
  function BatchRound(src: seq<byte>, ip: nat, k: Links, opt: seq<OptEntry>, cur: nat): (r: (Batch, bool))
    requires k.For(src) && ip + MF_LIMIT < |src| && 0 < cur < |opt| <= OPT_WINDOW
    ensures r.0.links.For(src) && |r.0.links.chain| == |k.chain| && cur < |r.0.opt| <= OPT_WINDOW
  {
    hide Links.For, Repeats, Inserted, Wider, Settled;
    var settled := Settled(opt, cur);
    if cur == |opt| - 1 || ip + cur + MF_LIMIT >= |src| then (Batch(k, settled), false)
    else
      var k' := Inserted(src, ip + cur, k);
      var m := Wider(src, k', ip + cur, ip);
      if m.len == 0 then (Batch(k', settled), false)
      else if m.len >= SUFFICIENT_LEN || m.start - ip + m.len >= OPT_WINDOW then (Batch(k', settled[..cur + 1]), true)
      else if settled[m.start - ip].price >= INF then (Batch(k', settled), false)
      else (Batch(k', OfferedAll(settled, cur, m.start - ip, m.start - m.ref, MIN_MATCH, m.len)), false)
  }

  /** The dynamic program from position cur on. */
  function BatchFrom(src: seq<byte>, ip: nat, k: Links, opt: seq<OptEntry>, cur: nat): (r: Batch)
    requires k.For(src) && ip + MF_LIMIT < |src| && 0 < cur <= |opt| <= OPT_WINDOW
    ensures r.links.For(src) && |r.links.chain| == |k.chain| && cur <= |r.opt| <= OPT_WINDOW
    decreases OPT_WINDOW - cur
  {
    hide Links.For, BatchRound;
    if cur == |opt| then Batch(k, opt)
    else
      var (b, done) := BatchRound(src, ip, k, opt, cur);
      if done then b else BatchFrom(src, ip, b.links, b.opt, cur + 1)
  }

  /** A round settles its position, and a last round leaves nothing pending. */
  lemma {:induction false} RoundPriced(src: seq<byte>, ip: nat, k: Links, opt: seq<OptEntry>, cur: nat)
    requires k.For(src) && ip + MF_LIMIT < |src| && 0 < cur < |opt| <= OPT_WINDOW && Priced(src, ip, opt, cur - 1)
    ensures var (b, done) := BatchRound(src, ip, k, opt, cur);
      Priced(src, ip, b.opt, cur) && (done ==> cur == |b.opt| - 1)
  {
    hide Priced, Settled, OfferedAll, Inserted, Repeats, Links.For, Wider;
    LiteralSettles(src, ip, opt, cur);
    var settled := Settled(opt, cur);
    if cur < |opt| - 1 && ip + cur + MF_LIMIT < |src| {
      var m := Wider(src, Inserted(src, ip + cur, k), ip + cur, ip);
      if m.len > 0 {
        CutPriced(src, ip, settled, cur);
        if m.len < SUFFICIENT_LEN && m.start - ip + m.len < OPT_WINDOW {
          OfferedAllPriced(src, ip, settled, cur, m.start - ip, m.start - m.ref, MIN_MATCH, m.len);
        }
      }
    }
  }

  /** Every position of a finished batch is settled. */
  lemma {:induction false} BatchPriced(src: seq<byte>, ip: nat, k: Links, opt: seq<OptEntry>, cur: nat)
    requires k.For(src) && ip + MF_LIMIT < |src| && 0 < cur <= |opt| <= OPT_WINDOW && Priced(src, ip, opt, cur - 1)
    ensures var r := BatchFrom(src, ip, k, opt, cur).opt; Priced(src, ip, r, |r| - 1)
    decreases OPT_WINDOW - cur
  {
    hide Priced, BatchRound, Links.For;
    if cur < |opt| {
      RoundPriced(src, ip, k, opt, cur);
      var (b, done) := BatchRound(src, ip, k, opt, cur);
      if !done { BatchPriced(src, ip, b.links, b.opt, cur + 1); }
    }
  }

  lemma {:induction false} CutPriced(src: seq<byte>, ip: int, opt: seq<OptEntry>, cur: int)
    requires Priced(src, ip, opt, cur)
    ensures Priced(src, ip, opt[..cur + 1], cur)
  {
    hide EntryOk;
    PricedStable(src, ip, opt, opt[..cur + 1], cur);
  }

  // ---- reading the parse back ------------------------------------------------

  datatype Step = Step(start: int, mlen: int, off: int)

  function End(path: seq<Step>): (r: int) {
    if path == [] then 0 else path[|path| - 1].start + path[|path| - 1].mlen
  }

  /** The bytes path encodes to when pending literals precede the batch. */
  function Cost(path: seq<Step>, pending: int): (r: int) {
    if path == [] then 0
    else
      var before := path[..|path| - 1];
      var s := path[|path| - 1];
      Cost(before, pending)
      + SeqPrice(s.start - End(before) + (if before == [] then pending else 0), s.mlen)
  }

  /** path's matches are genuine, in order, and disjoint. */
  ghost predicate Tiles(src: seq<byte>, ip: int, path: seq<Step>) {
    forall k :: 0 <= k < |path| ==> StepOk(src, ip, path, k)
  }

  ghost predicate StepOk(src: seq<byte>, ip: int, path: seq<Step>, k: int)
    requires 0 <= k < |path|
  {
    var s := path[k];
    0 <= ip && End(path[..k]) <= s.start && ip + s.start + MF_LIMIT <= |src|
    && MatchAt(src, ip + s.start, ip + s.start - s.off, s.mlen)
  }

  function Path(opt: seq<OptEntry>, p: int): (path: seq<Step>)
    decreases p
  {
    if !(0 < p < |opt| && 0 < opt[p].mlen <= p && 0 <= AnchorOf(opt, p - opt[p].mlen) < p) then []
    else
      var start := p - opt[p].mlen;
      Path(opt, AnchorOf(opt, start)) + [Step(start, opt[p].mlen, opt[p].off)]
  }

  /** steps lists path last first. */
  ghost predicate Reversed(steps: seq<Step>, path: seq<Step>) {
    |steps| == |path| && forall k :: 0 <= k < |path| ==> path[k] == steps[|steps| - 1 - k]
  }

  lemma {:induction false} ReversedAt(steps: seq<Step>, path: seq<Step>, j: int)
    requires Reversed(steps, path) && 0 <= j < |path|
    ensures |steps| == |path| && steps[|steps| - 1 - j] == path[j]
  {
  }

  lemma {:induction false} ReversedSize(steps: seq<Step>, path: seq<Step>)
    requires Reversed(steps, path)
    ensures |steps| == |path|
  {
  }

  lemma {:induction false} ReversedSnoc(steps: seq<Step>, path: seq<Step>, s: Step)
    requires Reversed(steps, path)
    ensures Reversed(steps + [s], [s] + path)
  {
  }

  lemma {:induction false} TilesAt(src: seq<byte>, ip: int, path: seq<Step>, k: int)
    requires Tiles(src, ip, path) && 0 <= k < |path|
    ensures StepOk(src, ip, path, k) && ip + path[k].start + path[k].mlen >= 0
  {
  }

  lemma {:induction false} TilesSnoc(src: seq<byte>, ip: int, before: seq<Step>, s: Step)
    requires 0 <= ip && Tiles(src, ip, before) && End(before) <= s.start && ip + s.start + MF_LIMIT <= |src|
    requires MatchAt(src, ip + s.start, ip + s.start - s.off, s.mlen)
    ensures Tiles(src, ip, before + [s])
  {
    hide MatchAt, End;
    var path := before + [s];
    assert path[..|before|] == before;
    forall k | 0 <= k < |path| ensures StepOk(src, ip, path, k) {
      if k < |before| {
        assert StepOk(src, ip, before, k);
        assert path[..k] == before[..k];
      }
    }
  }

  lemma {:induction false} CostSnoc(before: seq<Step>, s: Step)
    ensures Cost(before + [s], 0) == Cost(before, 0) + SeqPrice(s.start - End(before), s.mlen)
    ensures End(before + [s]) == s.start + s.mlen
  {
    hide SeqPrice;
    assert (before + [s])[..|before|] == before;
  }

  /** What a settled sequence end records: a match from an earlier sequence end. */
  lemma {:induction false} AnchorStep(src: seq<byte>, ip: int, opt: seq<OptEntry>, p: int)
    returns (a: int, s: Step)
    requires 0 <= ip && Priced(src, ip, opt, |opt| - 1) && 0 < p < |opt| && Anchored(opt, p)
    ensures p < |opt| && 0 <= a <= s.start < p && s.start + s.mlen == p && Anchored(opt, a)
    ensures ip + s.start + MF_LIMIT <= |src| && MatchAt(src, ip + s.start, ip + s.start - s.off, s.mlen)
    ensures opt[p].price == opt[a].price + SeqPrice(s.start - a, s.mlen) && Path(opt, p) == Path(opt, a) + [s]
  {
    hide SeqPrice;
    assert EntryOk(src, ip, opt, p);
    assert MatchOk(src, ip, opt, p);
    s := Step(p - opt[p].mlen, opt[p].mlen, opt[p].off);
    a := AnchorOf(opt, s.start);
    AnchorPriced(src, ip, opt, |opt| - 1, s.start);
  }

  /** The parse recorded at a sequence end reaches exactly there and costs exactly
      its price. */
  lemma {:induction false} PathExact(src: seq<byte>, ip: int, opt: seq<OptEntry>, p: int)
    requires 0 <= ip && Priced(src, ip, opt, |opt| - 1) && 0 <= p < |opt| && Anchored(opt, p)
    ensures Tiles(src, ip, Path(opt, p)) && End(Path(opt, p)) == p
    ensures Cost(Path(opt, p), 0) == opt[p].price
    decreases p
  {
    if p > 0 {
      hide Priced, Path, Tiles, Cost, End, MatchAt, SeqPrice, Anchored;
      var a, s := AnchorStep(src, ip, opt, p);
      PathExact(src, ip, opt, a);
      TilesSnoc(src, ip, Path(opt, a), s);
      CostSnoc(Path(opt, a), s);
    }
  }
}
