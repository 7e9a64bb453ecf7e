/**
 How cheap the optimal parse is.  The dynamic program keeps one entry per position, the
 cheapest, and a literal run costs an extra byte at 15 and every 255 bytes after that,
 so what it keeps need not be the cheapest start of every continuation.  It is cheapest
 among all paths of offered matches whose literal runs are shorter than 30 bytes, and
 for longer runs the loss is bounded; 30 is exact.
 */
module Lz4Cheapest {
  import opened Bytes
  import opened Lz4Format
  import opened Lz4Emit
  import opened Lz4Finder
  import opened Lz4Pricing
  import opened Lz4Plan

  // ---- what is offered -----------------------------------------------------------

  /** The match each round offers, with mlen 0 for none; round 0 is the seed. */
  type Offers = nat -> Step

  const NOTHING := Step(0, 0, 0)

  /** Offers start at positions their round has settled. */
  ghost predicate Placed(offers: Offers) {
    offers(0).start == 0 && forall c: nat :: offers(c).mlen > 0 ==> 0 <= offers(c).start <= c
  }

  /** s is one of the lengths round c offers, with its end still open. */
  predicate Edge(offers: Offers, c: nat, s: Step) {
    var o := offers(c);
    MIN_MATCH <= s.mlen <= o.mlen && s.start == o.start && s.off == o.off && s.start + s.mlen > c
  }

  /** What one round of the dynamic program makes of its table; true when it ends it. */
  function RoundOn(opt: seq<OptEntry>, cur: nat, o: Step): (r: (seq<OptEntry>, bool))
    requires 0 < cur < |opt| <= OPT_WINDOW && (o.mlen > 0 ==> 0 <= o.start <= cur)
    ensures cur < |r.0| <= OPT_WINDOW
  {
    hide Settled;
    var settled := Settled(opt, cur);
    if cur == |opt| - 1 || o.mlen <= 0 then (settled, false)
    else if o.mlen >= SUFFICIENT_LEN || o.start + o.mlen >= OPT_WINDOW then (settled[..cur + 1], true)
    else (OfferedAll(settled, cur, o.start, o.off, MIN_MATCH, o.mlen), false)
  }

  /** The table from round cur on. */
  ghost function TableOn(opt: seq<OptEntry>, offers: Offers, cur: nat): (r: seq<OptEntry>)
    requires 0 < cur <= |opt| <= OPT_WINDOW && Placed(offers)
    ensures cur <= |r| <= OPT_WINDOW
    decreases OPT_WINDOW - cur
  {
    hide RoundOn;
    if cur == |opt| then opt
    else
      var (t, done) := RoundOn(opt, cur, offers(cur));
      if done then t else TableOn(t, offers, cur + 1)
  }

  // ---- the invariant --------------------------------------------------------------

  /** The literal run that ends at p. */
  function Run(opt: seq<OptEntry>, p: nat): (x: int)
    requires p < |opt|
  {
    if opt[p].mlen == 1 then opt[p].litlen else 0
  }

  /** What one more literal costs after a run of x. */
  function NextLiteral(x: nat): (n: int) { 1 + LengthCost(x + 1) - LengthCost(x) }

  /** p was reached by one more literal. */
  ghost predicate LitStep(opt: seq<OptEntry>, p: nat)
    requires 0 < p < |opt|
  {
    opt[p].mlen == 1 && 0 <= Run(opt, p - 1) < p && opt[p].litlen == Run(opt, p - 1) + 1
    && opt[p].price == opt[p - 1].price + NextLiteral(Run(opt, p - 1))
  }

  ghost predicate EntryShaped(opt: seq<OptEntry>, p: nat)
    requires 0 < p < |opt|
  {
    0 <= opt[p].price <= 2 * p && (LitStep(opt, p) || MIN_MATCH <= opt[p].mlen)
  }

  /** Settled positions are literal steps or match ends; others are open or match ends. */
  ghost predicate Shaped(opt: seq<OptEntry>, cur: nat) {
    cur < |opt| <= OPT_WINDOW && opt[0] == OptEntry(0, 0, 1, 0)
    && (forall p: nat :: 0 < p <= cur ==> EntryShaped(opt, p))
    && (forall p: nat :: cur < p < |opt| ==> opt[p] == OPEN || (MIN_MATCH <= opt[p].mlen && 0 <= opt[p].price <= 2 * p))
  }

  /** No literal step to p is cheaper. */
  ghost predicate LiteralBest(opt: seq<OptEntry>, p: nat)
    requires 0 < p < |opt|
  {
    0 <= Run(opt, p - 1) && opt[p].price <= opt[p - 1].price + NextLiteral(Run(opt, p - 1))
  }

  /** No end of s is cheaper, and where a literal was kept it is strictly cheaper. */
  ghost predicate EdgeBest(opt: seq<OptEntry>, cur: nat, s: Step) {
    0 <= s.start < |opt| && 0 < s.start + s.mlen < |opt|
    && var p, price := s.start + s.mlen, opt[s.start].price + SeqPrice(0, s.mlen);
       opt[p].price <= price && (p <= cur && opt[p].mlen == 1 ==> opt[p].price < price)
  }

  /** Positions up to cur are settled at the least price, with all rounds up to n seen. */
  ghost predicate Best(opt: seq<OptEntry>, offers: Offers, cur: nat, n: int) {
    Shaped(opt, cur) && (forall p: nat :: 0 < p <= cur ==> LiteralBest(opt, p))
    && forall c: nat, s: Step :: c <= n && Edge(offers, c, s) ==> EdgeBest(opt, cur, s)
  }

  /** The same of a finished table: what ends in it was offered before its last round. */
  ghost predicate Finished(opt: seq<OptEntry>, offers: Offers) {
    |opt| > 0 && Shaped(opt, |opt| - 1) && (forall p: nat :: 0 < p < |opt| ==> LiteralBest(opt, p))
    && forall c: nat, s: Step :: c + 1 < |opt| && Edge(offers, c, s) && s.start + s.mlen < |opt| ==> EdgeBest(opt, |opt| - 1, s)
  }

  // ---- prices ---------------------------------------------------------------------

  lemma {:induction false} RunPrice(x: nat)
    ensures LitRunPrice(x) == x + LengthCost(x) && LitRunPrice(x + 1) == LitRunPrice(x) + NextLiteral(x)
    ensures 1 <= NextLiteral(x) <= 2 && (x != 14 && x < 15 ==> NextLiteral(x) == 1)
  {
  }

  lemma {:induction false} SplitPrice(n: nat, l: int)
    ensures SeqPrice(n, l) == LitRunPrice(n) + SeqPrice(0, l) && LitRunPrice(0) == 0
    ensures MIN_MATCH <= l ==> 3 <= SeqPrice(0, l) <= 2 * l
  {
  }

  /** A settled position costs its sequence end and the literals since. */
  lemma {:induction false} AnchorPrice(opt: seq<OptEntry>, cur: nat, p: nat)
    requires Shaped(opt, cur) && p <= cur
    ensures 0 <= Run(opt, p) <= p && AnchorOf(opt, p) == p - Run(opt, p)
    ensures opt[p].price == opt[AnchorOf(opt, p)].price + LitRunPrice(Run(opt, p))
    decreases p
  {
    hide LitRunPrice, NextLiteral;
    SplitPrice(0, 0);
    if p > 0 {
      assert EntryShaped(opt, p);
      if opt[p].mlen == 1 {
        AnchorPrice(opt, cur, p - 1);
        RunPrice(Run(opt, p - 1));
      }
    }
  }

  lemma {:induction false} PriceBounds(opt: seq<OptEntry>, cur: nat, p: nat)
    requires Shaped(opt, cur) && p <= cur
    ensures 0 <= opt[p].price <= 2 * p
  {
    if p > 0 { assert EntryShaped(opt, p); }
  }

  // ---- the literal step -------------------------------------------------------------

  lemma {:induction false} LiteralIs(opt: seq<OptEntry>, cur: nat)
    requires 0 < cur < |opt| && Shaped(opt, cur - 1)
    ensures 0 <= Run(opt, cur - 1) < cur && opt[cur - 1].price < INF
    ensures LiteralEntry(opt, cur) == OptEntry(opt[cur - 1].price + NextLiteral(Run(opt, cur - 1)), 0, 1, Run(opt, cur - 1) + 1)
    ensures 0 <= LiteralEntry(opt, cur).price <= 2 * cur
  {
    hide LitRunPrice, NextLiteral, LengthCost;
    AnchorPrice(opt, cur - 1, cur - 1);
    PriceBounds(opt, cur - 1, cur - 1);
    RunPrice(Run(opt, cur - 1));
    SplitPrice(0, 0);
  }

  /** Entries depend on earlier positions alone. */
  lemma {:induction false} ShapedStays(opt: seq<OptEntry>, opt': seq<OptEntry>, cur: nat, p: nat)
    requires 0 < p <= cur < |opt| && cur < |opt'| && EntryShaped(opt, p) && forall q :: 0 <= q <= cur ==> opt'[q] == opt[q]
    ensures EntryShaped(opt', p)
  {
  }

  lemma {:induction false} SettledShaped(opt: seq<OptEntry>, cur: nat)
    requires 0 < cur < |opt| && Shaped(opt, cur - 1)
    ensures Shaped(Settled(opt, cur), cur) && LiteralBest(Settled(opt, cur), cur)
    ensures var r := Settled(opt, cur); r[cur].price <= opt[cur].price && (r[cur].mlen == 1 ==> r[cur].price < opt[cur].price)
    ensures forall q: nat :: q < |opt| && q != cur ==> Settled(opt, cur)[q] == opt[q]
  {
    hide LiteralEntry, NextLiteral;
    LiteralIs(opt, cur);
    var r := Settled(opt, cur);
    forall p: nat | 0 < p < cur ensures EntryShaped(r, p) { ShapedStays(opt, r, cur - 1, p); }
    assert opt[cur] == OPEN || MIN_MATCH <= opt[cur].mlen;
    assert EntryShaped(r, cur);
  }

  lemma {:induction false} SettledBest(opt: seq<OptEntry>, offers: Offers, cur: nat)
    requires 0 < cur < |opt| && Best(opt, offers, cur - 1, cur - 1) && Placed(offers)
    ensures Best(Settled(opt, cur), offers, cur, cur - 1)
  {
    hide Settled, Shaped, SeqPrice, NextLiteral;
    SettledShaped(opt, cur);
    var r := Settled(opt, cur);
    forall p: nat | 0 < p <= cur ensures LiteralBest(r, p) {
      if p < cur { assert LiteralBest(opt, p); }
    }
    forall c: nat, s: Step | c <= cur - 1 && Edge(offers, c, s) ensures EdgeBest(r, cur, s) {
      assert EdgeBest(opt, cur - 1, s);
      assert s.start <= c;
    }
  }

  // ---- offering -----------------------------------------------------------------------

  /** r is opt with prices beyond cur lowered, or more positions. */
  ghost predicate Lowered(opt: seq<OptEntry>, r: seq<OptEntry>, cur: nat) {
    cur < |opt| <= |r| && (forall q: nat :: q <= cur ==> r[q] == opt[q])
    && forall q: nat :: cur < q < |opt| ==> r[q].price <= opt[q].price
  }

  lemma {:induction false} MatchIs(opt: seq<OptEntry>, cur: nat, start: nat, off: int, l: nat)
    requires Shaped(opt, cur) && start <= cur && MIN_MATCH <= l
    ensures MatchEntry(opt, start, off, l) == OptEntry(opt[start].price + SeqPrice(0, l), off, l, 0)
    ensures 0 <= MatchEntry(opt, start, off, l).price <= 2 * (start + l)
  {
    hide LitRunPrice, SeqPrice;
    AnchorPrice(opt, cur, start);
    PriceBounds(opt, cur, start);
    SplitPrice(start - AnchorOf(opt, start), l);
  }

  lemma {:induction false} OfferedLowers(opt: seq<OptEntry>, cur: nat, start: nat, off: int, l: nat)
    requires Shaped(opt, cur) && start <= cur && MIN_MATCH <= l && start + l < OPT_WINDOW
    ensures var r := Offered(opt, cur, start, off, l);
      Shaped(r, cur) && Lowered(opt, r, cur) && (start + l > cur ==> r[start + l].price <= opt[start].price + SeqPrice(0, l))
  {
    hide MatchEntry, SeqPrice, EntryShaped;
    MatchIs(opt, cur, start, off, l);
    var r := Offered(opt, cur, start, off, l);
    forall p: nat | 0 < p <= cur ensures EntryShaped(r, p) { ShapedStays(opt, r, cur, p); }
  }

  lemma {:induction false} LoweredTrans(a: seq<OptEntry>, b: seq<OptEntry>, c: seq<OptEntry>, cur: nat)
    requires Lowered(a, b, cur) && Lowered(b, c, cur)
    ensures Lowered(a, c, cur)
  {
    forall q: nat | cur < q < |a| ensures c[q].price <= a[q].price { assert c[q].price <= b[q].price; }
  }

  lemma {:induction false} OfferedAllLowers(opt: seq<OptEntry>, cur: nat, start: nat, off: int, l: nat, ml: nat)
    requires Shaped(opt, cur) && start <= cur && MIN_MATCH <= l && start + ml < OPT_WINDOW
    ensures var r := OfferedAll(opt, cur, start, off, l, ml); Shaped(r, cur) && Lowered(opt, r, cur)
    ensures var r := OfferedAll(opt, cur, start, off, l, ml);
      forall k: nat :: l <= k <= ml && start + k > cur ==> start + k < |r| && r[start + k].price <= opt[start].price + SeqPrice(0, k)
    decreases if l <= ml then ml - l + 1 else 0
  {
    hide Offered, Shaped, SeqPrice;
    ShapedSize(opt, cur);
    if l <= ml {
      OfferedLowers(opt, cur, start, off, l);
      var mid := Offered(opt, cur, start, off, l);
      OfferedAllLowers(mid, cur, start, off, l + 1, ml);
      LoweredTrans(opt, mid, OfferedAll(opt, cur, start, off, l, ml), cur);
    }
  }

  lemma {:induction false} ShapedSize(opt: seq<OptEntry>, cur: nat)
    requires Shaped(opt, cur)
    ensures cur < |opt| <= OPT_WINDOW
  {
  }

  lemma {:induction false} OfferedBest(opt: seq<OptEntry>, offers: Offers, cur: nat)
    requires Best(opt, offers, cur, cur - 1) && Placed(offers) && offers(cur).mlen > 0 && offers(cur).start + offers(cur).mlen < OPT_WINDOW
    ensures var o := offers(cur); 0 <= o.start <= cur < |opt|
    ensures var o := offers(cur); Best(OfferedAll(opt, cur, o.start, o.off, MIN_MATCH, o.mlen), offers, cur, cur)
  {
    hide OfferedAll, Shaped, SeqPrice, NextLiteral;
    var o := offers(cur);
    ShapedSize(opt, cur);
    OfferedAllLowers(opt, cur, o.start, o.off, MIN_MATCH, o.mlen);
    var r := OfferedAll(opt, cur, o.start, o.off, MIN_MATCH, o.mlen);
    forall p: nat | 0 < p <= cur ensures LiteralBest(r, p) { assert LiteralBest(opt, p); }
    forall c: nat, s: Step | c <= cur && Edge(offers, c, s) ensures EdgeBest(r, cur, s) {
      if c < cur { assert EdgeBest(opt, cur, s); }
    }
  }

  // ---- a whole table --------------------------------------------------------------------

  lemma {:induction false} FinishedBy(opt: seq<OptEntry>, offers: Offers, cur: nat)
    requires Best(opt, offers, cur, cur - 1) && Placed(offers)
    ensures Finished(opt[..cur + 1], offers)
  {
    hide SeqPrice, NextLiteral;
    var r := opt[..cur + 1];
    forall p: nat | 0 < p <= cur ensures EntryShaped(r, p) { ShapedStays(opt, r, cur, p); }
    forall p: nat | 0 < p < |r| ensures LiteralBest(r, p) { assert LiteralBest(opt, p); }
    forall c: nat, s: Step | c + 1 < |r| && Edge(offers, c, s) && s.start + s.mlen < |r| ensures EdgeBest(r, |r| - 1, s) {
      assert EdgeBest(opt, cur, s);
    }
  }

  lemma {:induction false} NoOffer(opt: seq<OptEntry>, offers: Offers, cur: nat)
    requires Best(opt, offers, cur, cur - 1) && offers(cur).mlen <= 0
    ensures Best(opt, offers, cur, cur)
  {
    hide EdgeBest, LiteralBest, Shaped;
    forall c: nat, s: Step | c <= cur && Edge(offers, c, s) ensures EdgeBest(opt, cur, s) { assert c <= cur - 1; }
  }

  /** However the offers come, a finished table is best. */
  lemma {:induction false} TableFinished(opt: seq<OptEntry>, offers: Offers, cur: nat)
    requires 0 < cur < |opt| && Best(opt, offers, cur - 1, cur - 1) && Placed(offers)
    ensures 0 < cur <= |opt| <= OPT_WINDOW && Finished(TableOn(opt, offers, cur), offers)
    decreases OPT_WINDOW - cur
  {
    hide Best, Settled, OfferedAll, Finished;
    BestSize(opt, offers, cur - 1, cur - 1);
    SettledBest(opt, offers, cur);
    var settled, o := Settled(opt, cur), offers(cur);
    FinishedBy(settled, offers, cur);
    if cur == |opt| - 1 {
      assert settled[..cur + 1] == settled;
      assert TableOn(opt, offers, cur) == TableOn(settled, offers, cur + 1) == settled;
    } else if o.mlen <= 0 {
      NoOffer(settled, offers, cur);
      TableFinished(settled, offers, cur + 1);
    } else if o.mlen < SUFFICIENT_LEN && o.start + o.mlen < OPT_WINDOW {
      OfferedBest(settled, offers, cur);
      TableFinished(OfferedAll(settled, cur, o.start, o.off, MIN_MATCH, o.mlen), offers, cur + 1);
    }
  }

  lemma {:induction false} BestSize(opt: seq<OptEntry>, offers: Offers, cur: nat, n: int)
    requires Best(opt, offers, cur, n)
    ensures cur < |opt| <= OPT_WINDOW
  {
  }

  /** So is the table the seed's lengths open. */
  lemma {:induction false} SeededBest(offers: Offers)
    requires Placed(offers) && MIN_MATCH <= offers(0).mlen < SUFFICIENT_LEN && offers(0).off >= 0
    ensures Best(Seeded(offers(0).off, offers(0).mlen), offers, 0, 0)
  {
    hide SeqPrice;
    var opt := Seeded(offers(0).off, offers(0).mlen);
    forall p: nat | 0 < p < |opt| ensures opt[p] == OPEN || (MIN_MATCH <= opt[p].mlen && 0 <= opt[p].price <= 2 * p) { SplitPrice(0, p); }
    forall c: nat, s: Step | c <= 0 && Edge(offers, c, s) ensures EdgeBest(opt, 0, s) { SplitPrice(0, s.mlen); }
  }

  // ---- along a path -----------------------------------------------------------------------

  /** What a run of y literals may lose: nothing below 30. */
  function Over(y: int): (n: int) { if y < 0 then 0 else y / 15 - LengthCost(y) }

  lemma {:induction false} OverIs(y: nat)
    ensures Over(y) >= 0 && (Over(y) == 0 <==> y < 30) && LitRunPrice(y) + Over(y) == y + y / 15
  {
  }

  /** How far a run of x literals is from its last extra byte. */
  function Phase(x: nat): (n: nat) { if x < 15 then x else (x - 15) % 255 }

  lemma {:induction false} PhaseSteps(x: nat)
    ensures if NextLiteral(x) == 2 then Phase(x) >= 14 && Phase(x + 1) == 0 else NextLiteral(x) == 1 && Phase(x + 1) == Phase(x) + 1
  {
  }

  /** A run that began earlier pays at most one extra byte more. */
  lemma {:induction false} LateRun(x: nat, y: nat)
    requires y <= x
    ensures LengthCost(x) - LengthCost(x - y) <= LengthCost(y) + 1 && 15 * LengthCost(y) <= y
  {
  }

  /** What is known y literals after a path's sequence end that cost price, when the
      table has a run of x and costs more by beta: either the run began since, and every
      extra byte took 15 literals, or it began before, for one byte less. */
  ghost predicate Behind(x: int, y: nat, beta: int) {
    0 <= x && if x <= y then 15 * beta <= y - Phase(x) else beta <= LengthCost(x) - LengthCost(x - y) - 1
  }

  lemma {:induction false} BehindBound(x: int, y: nat, beta: int)
    requires Behind(x, y, beta)
    ensures 15 * beta <= y
  {
    hide LengthCost, Phase;
    if x > y { LateRun(x, y); }
  }

  /** One more literal on both sides. */
  lemma {:induction false} BehindLiteral(x: nat, y: nat, beta: int)
    requires Behind(x, y, beta)
    ensures Behind(x + 1, y + 1, beta + NextLiteral(x) - 1)
  {
    hide LengthCost, Phase, NextLiteral;
    PhaseSteps(x);
    NextIs(x);
  }

  lemma {:induction false} NextIs(x: nat)
    ensures LengthCost(x + 1) == LengthCost(x) + NextLiteral(x) - 1
  {
  }

  /** A match end that is no dearer than the literal. */
  lemma {:induction false} BehindMatch(x: nat, y: nat, beta: int, less: int)
    requires Behind(x, y, beta) && less <= beta + NextLiteral(x) - 1
    ensures Behind(0, y + 1, less)
  {
    BehindLiteral(x, y, beta);
    BehindBound(x + 1, y + 1, beta + NextLiteral(x) - 1);
  }

  /** Up to p no literals after e, where something ended for price, beat the table by more
      than they may. */
  lemma {:induction false} Stretch(opt: seq<OptEntry>, offers: Offers, e: nat, price: int, p: nat)
    requires Finished(opt, offers) && e <= p < |opt| && opt[e].price <= price && (e > 0 && opt[e].mlen == 1 ==> opt[e].price < price)
    ensures Behind(Run(opt, p), p - e, opt[p].price - price - (p - e))
    decreases p
  {
    hide LengthCost, Phase, NextLiteral, Edge, EdgeBest, Behind;
    if p == e {
      AnchorPrice(opt, |opt| - 1, e);
      BehindStart(Run(opt, e), opt[e].price - price);
    } else {
      Stretch(opt, offers, e, price, p - 1);
      assert LiteralBest(opt, p) && EntryShaped(opt, p);
      var x, beta := Run(opt, p - 1), opt[p - 1].price - price - (p - 1 - e);
      if opt[p].mlen == 1 {
        BehindLiteral(x, p - 1 - e, beta);
      } else {
        BehindMatch(x, p - 1 - e, beta, opt[p].price - price - (p - e));
      }
    }
  }

  lemma {:induction false} BehindStart(x: nat, beta: int)
    requires beta <= 0 && (x > 0 ==> beta < 0)
    ensures Behind(x, 0, beta)
  {
  }

  /** What a path's literal runs may lose in all. */
  function Loss(path: seq<Step>): (n: int) {
    if path == [] then 0
    else
      var before, s := path[..|path| - 1], path[|path| - 1];
      Loss(before) + Over(s.start - End(before))
  }

  /** A path of matches that were offered while their ends were open, in order, within
      a table of n positions. */
  ghost predicate OfferedPath(offers: Offers, n: int, path: seq<Step>) {
    forall k :: 0 <= k < |path| ==> OfferedStep(offers, n, path, k)
  }

  ghost predicate OfferedStep(offers: Offers, n: int, path: seq<Step>, k: int)
    requires 0 <= k < |path|
  {
    End(path[..k]) <= path[k].start && path[k].start + path[k].mlen < n && exists c: nat :: c + 1 < n && Edge(offers, c, path[k])
  }

  lemma {:induction false} OfferedFront(offers: Offers, n: int, path: seq<Step>)
    requires OfferedPath(offers, n, path) && path != []
    ensures OfferedPath(offers, n, path[..|path| - 1])
  {
    hide Edge, End;
    var before := path[..|path| - 1];
    forall k | 0 <= k < |before| ensures OfferedStep(offers, n, before, k) {
      assert OfferedStep(offers, n, path, k);
      assert before[..k] == path[..k];
    }
  }

  /** The end of any path of offered matches is settled at no more than the path costs and
      may lose; and at less, where a literal was kept. */
  lemma {:induction false} PathBound(opt: seq<OptEntry>, offers: Offers, path: seq<Step>)
    requires Finished(opt, offers) && Placed(offers) && OfferedPath(offers, |opt|, path)
    ensures 0 <= End(path) < |opt| && opt[End(path)].price <= Cost(path, 0) + Loss(path)
    ensures End(path) > 0 && opt[End(path)].mlen == 1 ==> opt[End(path)].price < Cost(path, 0) + Loss(path)
    decreases |path|
  {
    hide SeqPrice, LitRunPrice, Over, Behind, Edge, NextLiteral;
    if path != [] {
      var before, s := path[..|path| - 1], path[|path| - 1];
      OfferedFront(offers, |opt|, path);
      PathBound(opt, offers, before);
      assert OfferedStep(offers, |opt|, path, |path| - 1);
      var c: nat :| c + 1 < |opt| && Edge(offers, c, s);
      EdgeFacts(offers, c, s);
      assert EdgeBest(opt, |opt| - 1, s);
      var e, y := End(before), s.start - End(before);
      Stretch(opt, offers, e, Cost(before, 0) + Loss(before), s.start);
      BehindBound(Run(opt, s.start), y, opt[s.start].price - (Cost(before, 0) + Loss(before)) - y);
      OverIs(y);
      SplitPrice(y, s.mlen);
    }
  }

  lemma {:induction false} EdgeFacts(offers: Offers, c: nat, s: Step)
    requires Edge(offers, c, s) && Placed(offers)
    ensures 0 <= s.start <= c < s.start + s.mlen && MIN_MATCH <= s.mlen
  {
  }

  /** Every literal run of the path is shorter than n. */
  predicate RunsBelow(path: seq<Step>, n: int) { forall k :: 0 <= k < |path| ==> RunBelow(path, n, k) }

  predicate RunBelow(path: seq<Step>, n: int, k: int)
    requires 0 <= k < |path|
  {
    path[k].start - End(path[..k]) < n
  }

  lemma {:induction false} ShortRunsLoseNothing(path: seq<Step>)
    requires RunsBelow(path, 30)
    ensures Loss(path) <= 0
    decreases |path|
  {
    hide End, Over;
    if path != [] {
      var before := path[..|path| - 1];
      assert RunBelow(path, 30, |path| - 1);
      forall k | 0 <= k < |before| ensures RunBelow(before, 30, k) {
        assert RunBelow(path, 30, k);
        assert before[..k] == path[..k];
      }
      ShortRunsLoseNothing(before);
      var y := path[|path| - 1].start - End(before);
      if y >= 0 { OverIs(y); } else { OverNegative(y); }
    }
  }

  lemma {:induction false} OverNegative(y: int)
    requires y < 0
    ensures Over(y) == 0
  {
  }

  // ---- the batches of a source ---------------------------------------------------------------

  /** The chains a round searches: every position of the batch up to its own is indexed. */
  function LinksAt(src: seq<byte>, ip: nat, k: Links, c: nat): (r: Links)
    requires k.For(src) && ip + c + MF_LIMIT < |src|
    ensures r.For(src)
  {
    InsertedAll(src, ip + 1, ip + c + 1, k)
  }

  function StepOf(ip: nat, m: Match): (s: Step) { Step(m.start - ip, m.len, m.start - m.ref) }

  /** What round c of the batch that m opens offers: the widest match around its position. */
  ghost function OfferAt(src: seq<byte>, k: Links, m: Match, c: nat): (s: Step) {
    if c == 0 then StepOf(m.start, m)
    else if k.For(src) && m.start + c + MF_LIMIT < |src| then
      var w := Wider(src, LinksAt(src, m.start, k, c), m.start + c, m.start);
      if w.len == 0 then NOTHING else StepOf(m.start, w)
    else NOTHING
  }

  ghost function OffersOf(src: seq<byte>, k: Links, m: Match): (offers: Offers) { (c: nat) => OfferAt(src, k, m, c) }

  lemma {:induction false} OffersPlaced(src: seq<byte>, k: Links, m: Match)
    ensures Placed(OffersOf(src, k, m))
  {
    hide Links.For, MatchAt, Wider, LinksAt;
  }

  /** Every offered length is a genuine match. */
  lemma {:induction false} EdgeGenuine(src: seq<byte>, k: Links, m: Match, c: nat, s: Step)
    requires k.For(src) && m.start + MF_LIMIT < |src| && MatchAt(src, m.start, m.ref, m.len) && Edge(OffersOf(src, k, m), c, s)
    ensures MatchAt(src, m.start + s.start, m.start + s.start - s.off, s.mlen) && m.start + s.start + MF_LIMIT <= |src|
  {
    hide Links.For, Repeats, Wider, LinksAt;
    var o := OfferAt(src, k, m, c);
    MatchShorter(src, m.start + o.start, m.start + o.start - o.off, o.mlen, s.mlen);
  }

  lemma {:induction false} OfferedTiles(src: seq<byte>, k: Links, m: Match, n: int, path: seq<Step>)
    requires k.For(src) && m.start + MF_LIMIT < |src| && MatchAt(src, m.start, m.ref, m.len) && OfferedPath(OffersOf(src, k, m), n, path)
    ensures Tiles(src, m.start, path)
  {
    hide Links.For, MatchAt, OfferAt, Edge, End;
    forall j | 0 <= j < |path| ensures StepOk(src, m.start, path, j) {
      assert OfferedStep(OffersOf(src, k, m), n, path, j);
      var c: nat :| c + 1 < n && Edge(OffersOf(src, k, m), c, path[j]);
      EdgeGenuine(src, k, m, c, path[j]);
    }
  }

  lemma {:induction false} InsertedLast(src: seq<byte>, from: nat, to: nat, k: Links)
    requires k.For(src) && from <= to && to + 1 + MF_LIMIT <= |src|
    ensures InsertedAll(src, from, to + 1, k) == Inserted(src, to, InsertedAll(src, from, to, k))
    decreases if from < to then to - from else 0
  {
    hide Links.For, Inserted;
    if from < to { InsertedLast(src, from + 1, to, Inserted(src, from, k)); }
  }

  /** The chains before round c. */
  ghost predicate Indexed(src: seq<byte>, ip: nat, k: Links, now: Links, c: nat) {
    k.For(src) && ip + MF_LIMIT < |src| && c > 0 && now == InsertedAll(src, ip + 1, Min(ip + c, |src| - MF_LIMIT), k)
  }

  /** A round finds what is said to be offered. */
  lemma {:induction false} RoundIs(src: seq<byte>, k: Links, m: Match, now: Links, opt: seq<OptEntry>, cur: nat)
    requires 0 < cur < |opt| <= OPT_WINDOW && Indexed(src, m.start, k, now, cur) && Shaped(opt, cur - 1)
    ensures now.For(src) && Placed(OffersOf(src, k, m)) && (OfferAt(src, k, m, cur).mlen > 0 ==> 0 <= OfferAt(src, k, m, cur).start <= cur)
    ensures var (b, done) := BatchRound(src, m.start, now, opt, cur);
      (b.opt, done) == RoundOn(opt, cur, OfferAt(src, k, m, cur))
      && (cur < |opt| - 1 ==> Indexed(src, m.start, k, b.links, cur + 1))
  {
    hide Links.For, Repeats, Inserted, InsertedAll, Wider, Settled, OfferedAll, Shaped;
    var ip := m.start;
    OffersPlaced(src, k, m);
    SettledShaped(opt, cur);
    var settled := Settled(opt, cur);
    if cur < |opt| - 1 && ip + cur + MF_LIMIT < |src| {
      InsertedLast(src, ip + 1, ip + cur, k);
      var w := Wider(src, LinksAt(src, ip, k, cur), ip + cur, ip);
      if w.len > 0 { PriceBounds(settled, cur, w.start - ip); }
    }
  }

  /** A batch's table is the one its offers make. */
  lemma {:induction false} BatchIsTable(src: seq<byte>, k: Links, m: Match, now: Links, opt: seq<OptEntry>, cur: nat)
    requires 0 < cur < |opt| <= OPT_WINDOW && Indexed(src, m.start, k, now, cur) && Best(opt, OffersOf(src, k, m), cur - 1, cur - 1)
    ensures now.For(src) && Placed(OffersOf(src, k, m)) && BatchFrom(src, m.start, now, opt, cur).opt == TableOn(opt, OffersOf(src, k, m), cur)
    decreases OPT_WINDOW - cur
  {
    hide Best, BatchRound, RoundOn, Links.For, InsertedAll, OfferAt, Shaped;
    var offers := OffersOf(src, k, m);
    BestShaped(opt, offers, cur - 1, cur - 1);
    RoundIs(src, k, m, now, opt, cur);
    var (b, done) := BatchRound(src, m.start, now, opt, cur);
    if cur < |opt| - 1 {
      RoundBest(opt, offers, cur);
      if !done { BatchIsTable(src, k, m, b.links, b.opt, cur + 1); }
    } else {
      LastRound(opt, cur, offers(cur));
    }
  }

  lemma {:induction false} BestShaped(opt: seq<OptEntry>, offers: Offers, cur: nat, n: int)
    requires Best(opt, offers, cur, n)
    ensures Shaped(opt, cur)
  {
  }

  lemma {:induction false} LastRound(opt: seq<OptEntry>, cur: nat, o: Step)
    requires 0 < cur == |opt| - 1 < OPT_WINDOW && (o.mlen > 0 ==> 0 <= o.start <= cur)
    ensures RoundOn(opt, cur, o).1 == false && |RoundOn(opt, cur, o).0| == cur + 1
  {
  }

  lemma {:induction false} RoundBest(opt: seq<OptEntry>, offers: Offers, cur: nat)
    requires 0 < cur < |opt| - 1 < OPT_WINDOW && Best(opt, offers, cur - 1, cur - 1) && Placed(offers)
    ensures var (t, done) := RoundOn(opt, cur, offers(cur)); !done ==> cur + 1 < |t| && Best(t, offers, cur, cur)
  {
    hide Best, Settled, OfferedAll;
    SettledBest(opt, offers, cur);
    var settled, o := Settled(opt, cur), offers(cur);
    if o.mlen <= 0 {
      NoOffer(settled, offers, cur);
    } else if o.mlen < SUFFICIENT_LEN && o.start + o.mlen < OPT_WINDOW {
      OfferedBest(settled, offers, cur);
    }
  }

  lemma {:induction false} BatchFinished(src: seq<byte>, k: Links, m: Match)
    requires k.For(src) && m.start + MF_LIMIT < |src| && m.len < SUFFICIENT_LEN && MatchAt(src, m.start, m.ref, m.len)
    ensures Finished(BatchAt(src, k, m).opt, OffersOf(src, k, m)) && Placed(OffersOf(src, k, m))
  {
    hide Links.For, Repeats, Best, Finished, BatchFrom, TableOn;
    var offers := OffersOf(src, k, m);
    OffersPlaced(src, k, m);
    SeededBest(offers);
    var opt := Seeded(m.start - m.ref, m.len);
    TableFinished(opt, offers, 1);
    BatchIsTable(src, k, m, k, opt, 1);
  }

  // ---- what is taken ---------------------------------------------------------------------------

  lemma {:induction false} AfterEnd(opt: seq<OptEntry>, offers: Offers, q: nat)
    requires Finished(opt, offers) && LastEnd(opt, |opt| - 1) <= q < |opt|
    ensures var end := LastEnd(opt, |opt| - 1); Run(opt, q) == q - end && opt[q].price == opt[end].price + LitRunPrice(q - end)
    ensures q > LastEnd(opt, |opt| - 1) ==> opt[q].mlen == 1
    decreases q
  {
    hide LitRunPrice, NextLiteral, LastEnd, Edge, EdgeBest, LiteralBest;
    var end := LastEnd(opt, |opt| - 1);
    SplitPrice(0, 0);
    if q > end {
      AfterEnd(opt, offers, q - 1);
      BeyondEnd(opt, |opt| - 1, q);
      assert EntryShaped(opt, q);
      RunPrice(q - 1 - end);
    } else if end > 0 {
      assert EntryShaped(opt, end);
    }
  }

  lemma {:induction false} BeyondEnd(opt: seq<OptEntry>, n: nat, q: nat)
    requires n < |opt| && LastEnd(opt, n) < q <= n
    ensures opt[q].mlen == 1
    decreases n
  {
    if q < n { BeyondEnd(opt, n - 1, q); }
  }

  /** The sequences a batch takes. */
  function TakenSteps(src: seq<byte>, k: Links, m: Match): (path: seq<Step>)
    requires k.For(src) && m.start + MF_LIMIT < |src| && m.ref <= m.start && MIN_MATCH <= m.len < SUFFICIENT_LEN
  {
    Path(BatchAt(src, k, m).opt, BatchEnd(src, k, m))
  }

  /** The path a batch takes is cheapest: followed by literals, it reaches the end of any
      path of matches that were offered while their ends were open, at or behind its own
      end, at no more than that path costs and may lose, and at less when it is behind.
      A path whose literal runs are all shorter than 30 loses nothing. */
  lemma {:induction false} BatchCheapest(src: seq<byte>, k: Links, m: Match, path: seq<Step>)
    requires k.For(src) && m.start + MF_LIMIT < |src| && m.len < SUFFICIENT_LEN && MatchAt(src, m.start, m.ref, m.len)
    requires OfferedPath(OffersOf(src, k, m), |BatchAt(src, k, m).opt|, path)
    ensures var taken := TakenSteps(src, k, m); End(path) >= End(taken) ==>
      Cost(taken, 0) + LitRunPrice(End(path) - End(taken)) <= Cost(path, 0) + Loss(path)
    ensures var taken := TakenSteps(src, k, m); End(path) > End(taken) ==>
      Cost(taken, 0) + LitRunPrice(End(path) - End(taken)) < Cost(path, 0) + Loss(path)
    ensures RunsBelow(path, 30) ==> Loss(path) <= 0
  {
    hide Links.For, Repeats, Finished, BatchAt, Path, Cost, Loss, LitRunPrice, OfferAt, LastEnd, OfferedPath, Priced, Tiles, RunsBelow;
    var opt, offers := BatchAt(src, k, m).opt, OffersOf(src, k, m);
    BatchFinished(src, k, m);
    BatchPath(src, k, m);
    PathBound(opt, offers, path);
    SplitPrice(0, 0);
    if End(path) >= End(TakenSteps(src, k, m)) { AfterEnd(opt, offers, End(path)); }
    if RunsBelow(path, 30) { ShortRunsLoseNothing(path); }
  }

  // ---- in bytes ----------------------------------------------------------------------------------

  lemma {:induction false} CostPending(path: seq<Step>, pending: int)
    requires path != []
    ensures Cost(path, pending) == Cost(path, 0) + LitRunPrice(path[0].start + pending) - LitRunPrice(path[0].start)
    decreases |path|
  {
    hide LitRunPrice;
    var before := path[..|path| - 1];
    if before != [] { CostPending(before, pending); }
  }

  lemma {:induction false} LiteralsShift(a: nat, b: nat, n: nat)
    ensures LitRunPrice(a + n) - LitRunPrice(a) <= LitRunPrice(b + n) - LitRunPrice(b) + 1
  {
  }

  lemma {:induction false} TilesForward(src: seq<byte>, ip: int, path: seq<Step>)
    requires Tiles(src, ip, path)
    ensures End(path) >= 0 && (path != [] ==> End(path) > 0 && path[0].start >= 0)
    decreases |path|
  {
    hide Repeats;
    if path != [] {
      var n := |path| - 1;
      assert StepOk(src, ip, path, n) && StepOk(src, ip, path, 0);
      assert path[..0] == [];
      if n > 0 && 0 <= ip { TilesFront(src, ip, path, n); TilesForward(src, ip, path[..n]); }
    }
  }

  lemma {:induction false} PendingCosts(taken: seq<Step>, path: seq<Step>, n: nat, loss: int)
    requires Cost(taken, 0) <= Cost(path, 0) + loss && (taken == [] <==> path == [])
    requires taken != [] ==> taken[0].start >= 0 && path[0].start >= 0
    ensures Cost(taken, n) <= Cost(path, n) + loss + (if n == 0 then 0 else 1)
  {
    hide LitRunPrice;
    if taken != [] {
      hide Cost;
      CostPending(taken, n);
      CostPending(path, n);
      LiteralsShift(taken[0].start, path[0].start, n);
    }
  }

  /** The path taken, against any other to its end, with literals pending before both. */
  lemma {:induction false} TakenCosts(src: seq<byte>, k: Links, m: Match, path: seq<Step>, n: nat)
    requires k.For(src) && m.start + MF_LIMIT < |src| && m.len < SUFFICIENT_LEN && MatchAt(src, m.start, m.ref, m.len)
    requires OfferedPath(OffersOf(src, k, m), |BatchAt(src, k, m).opt|, path) && End(path) == BatchEnd(src, k, m)
    ensures Tiles(src, m.start, TakenSteps(src, k, m)) && Tiles(src, m.start, path)
    ensures Cost(TakenSteps(src, k, m), n) <= Cost(path, n) + Loss(path) + (if n == 0 then 0 else 1)
  {
    hide Links.For, Repeats, BatchAt, Path, Cost, Loss, LitRunPrice, OfferAt, LastEnd, OfferedPath, Priced, Tiles, RunsBelow;
    var taken := TakenSteps(src, k, m);
    BatchPath(src, k, m);
    BatchCheapest(src, k, m, path);
    OfferedTiles(src, k, m, |BatchAt(src, k, m).opt|, path);
    TilesForward(src, m.start, taken);
    TilesForward(src, m.start, path);
    SplitPrice(0, 0);
    PendingCosts(taken, path, n, Loss(path));
  }

  /** The bytes of a plan's sequences. */
  ghost function Committed(src: seq<byte>, p: Plan): (n: nat)
    requires p.Ok(src)
  {
    |EncodeSequences(p.sequences)|
  }

  /** A batch writes no more than the sequences of any other offered path to its end would
      take and may lose, and one byte for literals that were pending before it. */
  lemma {:induction false} BatchBytes(src: seq<byte>, k: Links, p: Plan, m: Match, path: seq<Step>) returns (taken: Plan, other: Plan)
    requires k.For(src) && m.start + MF_LIMIT < |src| && m.len < SUFFICIENT_LEN && MatchAt(src, m.start, m.ref, m.len)
    requires p.Ok(src) && p.anchor <= m.start && OfferedPath(OffersOf(src, k, m), |BatchAt(src, k, m).opt|, path)
    requires End(path) == BatchEnd(src, k, m)
    ensures BatchTakes(src, k, m) && Tiles(src, m.start, path)
    ensures taken == BatchTaken(src, k, p, m) && other == TakenPath(src, m.start, p, path) && taken.Ok(src) && other.Ok(src)
    ensures Committed(src, taken) <= Committed(src, other) + Loss(path) + (if p.anchor == m.start then 0 else 1)
  {
    hide Links.For, Repeats, BatchAt, BatchEnd, Path, Cost, Loss, OfferAt, OfferedPath, Plan.Ok, Tiles, EncodeSequences, TakenPath, End;
    var n := m.start - p.anchor;
    TakenCosts(src, k, m, path, n);
    TakenPathOk(src, m.start, p, TakenSteps(src, k, m));
    TakenPathOk(src, m.start, p, path);
    taken, other := BatchTaken(src, k, p, m), TakenPath(src, m.start, p, path);
  }
}
