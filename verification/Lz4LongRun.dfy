/**
 A sequence of offers on which the dynamic program misses the cheapest path.  Short
 matches keep the table open up to position 48, a long one found late leads from 4 to
 52, a dear one covers what follows, and at 67 a match that costs as much as the
 literals up to there replaces them, so that their second run pays an extra byte again.
 */
module Lz4LongRun {
  import opened Lz4Format
  import opened Lz4Pricing
  import opened Lz4Plan
  import opened Lz4Cheapest

  function OfferOf(c: nat): (s: Step) {
    if c % 4 == 0 && c <= 44 then Step(c, 5, 1)
    else if c == 48 then Step(48, 36, 1)
    else if c == 51 then Step(4, 48, 1)
    else if c == 66 then Step(26, 41, 1)
    else if c == 82 then Step(82, 4, 1)
    else NOTHING
  }

  function LateOffers(): (offers: Offers) { (c: nat) => OfferOf(c) }

  function Literal(price: int, run: int): (e: OptEntry) { OptEntry(price, 0, 1, run) }

  /** How each position is settled. */
  function Done(p: nat): (e: OptEntry) {
    if p < 4 then Literal(p, p)
    else if p < 52 then
      if p % 4 < 2 then OptEntry(3 * (p / 4), 1, 4 + p % 4, 0) else Literal(3 * (p / 4) + p % 4 - 1, p % 4 - 1)
    else if p == 52 then OptEntry(7, 1, 48, 0)
    else if p < 67 then Literal(p - 45, p - 52)
    else if p == 67 then OptEntry(23, 1, 41, 0)
    else if p < 82 then Literal(p - 44, p - 67)
    else if p == 82 then Literal(39, 15)
    else if p < 85 then OptEntry(40, 1, p - 48, 0)
    else if p == 85 then Literal(41, 1)
    else OptEntry(42, 1, 4, 0)
  }

  /** What stands at an unsettled position before round cur. */
  function Waiting(cur: nat, p: nat): (e: OptEntry)
    requires 0 < cur
  {
    if cur <= 48 then
      var j := (cur - 1) / 4;
      if j > 0 && p == 4 * j + 1 then OptEntry(3 * j, 1, 5, 0)
      else if p < 4 * j + 4 then OPEN else OptEntry(3 * j + 3, 1, p - 4 * j, 0)
    else if p == 49 then OptEntry(36, 1, 5, 0)
    else if p < 52 || p == 85 then OPEN
    else if p == 52 && cur > 51 then OptEntry(7, 1, 48, 0)
    else if p == 67 && cur > 66 then OptEntry(23, 1, 41, 0)
    else if p == 86 then OptEntry(42, 1, 4, 0)
    else OptEntry(if p < 67 then 39 else 40, 1, p - 48, 0)
  }

  function Size(cur: nat): (n: nat)
    requires 0 < cur
  {
    if cur <= 48 then 4 * ((cur - 1) / 4) + 6 else if cur <= 82 then 85 else 87
  }

  function EntryAt(cur: nat, p: nat): (e: OptEntry)
    requires 0 < cur
  {
    if p < cur then Done(p) else Waiting(cur, p)
  }

  /** The table before round cur. */
  function Stage(cur: nat): (opt: seq<OptEntry>)
    requires 0 < cur
    ensures |opt| == Size(cur)
  {
    seq(Size(cur), p requires 0 <= p => EntryAt(cur, p))
  }

  /** The table between the literal step and the offer of round cur. */
  function Half(cur: nat): (opt: seq<OptEntry>)
    requires 0 < cur
    ensures |opt| == Size(cur)
  {
    seq(Size(cur), p requires 0 <= p => if p <= cur then Done(p) else Waiting(cur, p))
  }

  /** The literal after a settled position. */
  function Next(e: OptEntry): (r: OptEntry) {
    var run := if e.mlen == 1 then e.litlen + 1 else 1;
    Literal((if e.mlen == 1 then e.price - LitRunPrice(e.litlen) else e.price) + LitRunPrice(run), run)
  }

  lemma {:induction false} SettlesEarly(cur: nat)
    requires 0 < cur <= 48
    ensures Done(cur - 1).price < INF && Done(cur) == if Next(Done(cur - 1)).price < Waiting(cur, cur).price then Next(Done(cur - 1)) else Waiting(cur, cur)
  {
    var j, r := cur / 4, cur % 4;
    assert cur == 4 * j + r;
    if r == 0 { assert (cur - 1) / 4 == j - 1 && (cur - 1) % 4 == 3; } else { assert (cur - 1) / 4 == j && (cur - 1) % 4 == r - 1; }
  }

  lemma {:induction false} SettlesLate(cur: nat)
    requires 48 < cur <= 86
    ensures Done(cur - 1).price < INF && Done(cur) == if Next(Done(cur - 1)).price < Waiting(cur, cur).price then Next(Done(cur - 1)) else Waiting(cur, cur)
  {
  }

  lemma {:induction false} SettlesTo(cur: nat)
    requires 0 < cur <= 86
    ensures cur < Size(cur) && Settled(Stage(cur), cur) == Half(cur)
  {
    hide Done, Waiting, LitRunPrice;
    if cur <= 48 { SettlesEarly(cur); } else { SettlesLate(cur); }
    var r := Settled(Stage(cur), cur);
    assert LiteralEntry(Stage(cur), cur) == Next(Done(cur - 1));
    assert r[cur] == Done(cur);
    forall p: nat | p < Size(cur) ensures r[p] == Half(cur)[p] { }
  }

  // ---- offering in one go -----------------------------------------------------------

  lemma {:induction false} LastOffered(opt: seq<OptEntry>, cur: nat, start: nat, off: int, l: nat, ml: nat)
    requires start <= cur < |opt| && l <= ml && start + ml == cur + 1 < |opt|
    ensures OfferedAll(opt, cur, start, off, l, ml) == Offered(opt, cur, start, off, ml)
    decreases ml - l
  {
    hide MatchEntry;
    if l < ml {
      assert Offered(opt, cur, start, off, l) == opt;
      LastOffered(opt, cur, start, off, l + 1, ml);
    } else {
      assert OfferedAll(Offered(opt, cur, start, off, ml), cur, start, off, ml + 1, ml) == Offered(opt, cur, start, off, ml);
    }
  }

  lemma {:induction false} Appended(opt: seq<OptEntry>, cur: nat, start: nat, off: int, l: nat, ml: nat)
    requires start <= cur < |opt| == start + l && l <= ml + 1 && opt[start].mlen != 1
    ensures OfferedAll(opt, cur, start, off, l, ml)
         == opt + seq(ml + 1 - l, i requires 0 <= i => OptEntry(opt[start].price + SeqPrice(0, l + i), off, l + i, 0))
    decreases ml + 1 - l
  {
    hide SeqPrice;
    if l <= ml {
      var next := Offered(opt, cur, start, off, l);
      assert next == opt + [OptEntry(opt[start].price + SeqPrice(0, l), off, l, 0)];
      Appended(next, cur, start, off, l + 1, ml);
    }
  }

  // ---- the rounds that offer ----------------------------------------------------------

  lemma {:induction false} Short(cur: nat)
    requires cur % 4 == 0 && 0 < cur <= 44
    ensures OfferedAll(Half(cur), cur, cur, 1, MIN_MATCH, 5) == Stage(cur + 1)
  {
    var half := Half(cur);
    var first := Offered(half, cur, cur, 1, MIN_MATCH);
    assert first == half + [OPEN, OPEN, OptEntry(half[cur].price + SeqPrice(0, 4), 1, 4, 0)];
    Appended(first, cur, cur, 1, 5, 5);
    var r := OfferedAll(half, cur, cur, 1, MIN_MATCH, 5);
    forall p: nat | p < Size(cur + 1) ensures r[p] == Stage(cur + 1)[p] { }
  }

  lemma {:induction false} Covering()
    ensures OfferedAll(Half(48), 48, 48, 1, MIN_MATCH, 36) == Stage(49)
  {
    hide SeqPrice;
    CoverPrice(4);
    var half := Half(48);
    var first := Offered(half, 48, 48, 1, MIN_MATCH);
    assert first == half + [OPEN, OPEN, OptEntry(half[48].price + SeqPrice(0, 4), 1, 4, 0)];
    Appended(first, 48, 48, 1, 5, 36);
    var r := OfferedAll(half, 48, 48, 1, MIN_MATCH, 36);
    assert r == first + seq(32, i requires 0 <= i => OptEntry(half[48].price + SeqPrice(0, 5 + i), 1, 5 + i, 0));
    forall p: nat | p < 85 ensures r[p] == Stage(49)[p] {
      if p >= 53 { CoverPrice(p - 48); }
    }
  }

  lemma {:induction false} CoverPrice(l: nat)
    requires 4 <= l <= 36
    ensures SeqPrice(0, l) == if l < 19 then 3 else 4
  {
  }

  lemma {:induction false} Late(cur: nat, start: nat, ml: nat)
    requires (cur == 51 && start == 4 && ml == 48) || (cur == 66 && start == 26 && ml == 41)
    ensures OfferedAll(Half(cur), cur, start, 1, MIN_MATCH, ml) == Stage(cur + 1)
  {
    LastOffered(Half(cur), cur, start, 1, MIN_MATCH, ml);
    var r := Offered(Half(cur), cur, start, 1, ml);
    forall p: nat | p < 85 ensures r[p] == Stage(cur + 1)[p] { }
  }

  lemma {:induction false} Final()
    ensures OfferedAll(Half(82), 82, 82, 1, MIN_MATCH, 4) == Stage(83)
  {
    var half := Half(82);
    var r := Offered(half, 82, 82, 1, 4);
    assert r == half + [OPEN, OptEntry(half[67].price + SeqPrice(15, 4), 1, 4, 0)];
    assert OfferedAll(r, 82, 82, 1, 5, 4) == r;
    forall p: nat | p < 87 ensures r[p] == Stage(83)[p] { }
  }

  lemma {:induction false} Quiet(cur: nat)
    requires 0 < cur <= 86 && OfferOf(cur).mlen == 0
    ensures Half(cur) == Stage(cur + 1)
  {
    forall p: nat | p < Size(cur) ensures Half(cur)[p] == Stage(cur + 1)[p] { }
  }

  lemma {:induction false} OneRound(cur: nat)
    requires 0 < cur <= 86
    ensures cur < Size(cur) <= OPT_WINDOW && (OfferOf(cur).mlen > 0 ==> 0 <= OfferOf(cur).start <= cur)
    ensures RoundOn(Stage(cur), cur, OfferOf(cur)) == (Stage(cur + 1), false)
  {
    hide Stage, Half, Settled, OfferedAll;
    SettlesTo(cur);
    if cur % 4 == 0 && cur <= 44 { Short(cur); }
    else if cur == 48 { Covering(); }
    else if cur == 51 { Late(51, 4, 48); }
    else if cur == 66 { Late(66, 26, 41); }
    else if cur == 82 { Final(); }
    else { Quiet(cur); }
  }

  lemma {:induction false} AllRounds(cur: nat)
    requires 0 < cur <= 87 && Placed(LateOffers())
    ensures 0 < cur <= |Stage(cur)| <= OPT_WINDOW && TableOn(Stage(cur), LateOffers(), cur) == Stage(87)
    decreases 87 - cur
  {
    hide Stage, RoundOn;
    if cur <= 86 {
      OneRound(cur);
      AllRounds(cur + 1);
    }
  }

  lemma {:induction false} Prices()
    ensures SeqPrice(0, 4) == 3 && SeqPrice(0, 48) == 4 && SeqPrice(30, 4) == 34 && SeqPrice(0, 5) == 3
  {
  }

  const CHEAPER := [Step(0, 4, 1), Step(4, 48, 1), Step(82, 4, 1)]

  lemma {:induction false} CheaperCosts()
    ensures Cost(CHEAPER, 0) == 41 && End(CHEAPER) == 86 && RunsBelow(CHEAPER, 31)
    ensures End(CHEAPER[..0]) == 0 && End(CHEAPER[..1]) == 4 && End(CHEAPER[..2]) == 52
  {
    hide SeqPrice;
    Prices();
    assert CHEAPER[..0] == [] && CHEAPER[..1] == [Step(0, 4, 1)] && CHEAPER[..2] == [Step(0, 4, 1), Step(4, 48, 1)];
    assert CHEAPER[..2][..1] == CHEAPER[..1] && CHEAPER[..1][..0] == [];
    assert Cost([Step(0, 4, 1)], 0) == 3;
    assert Cost(CHEAPER[..2], 0) == 7;
  }

  lemma {:induction false} CheaperOffered()
    ensures OfferedPath(LateOffers(), 87, CHEAPER)
  {
    hide Cost;
    CheaperCosts();
    assert Edge(LateOffers(), 0, CHEAPER[0]) && Edge(LateOffers(), 51, CHEAPER[1]) && Edge(LateOffers(), 82, CHEAPER[2]);
    forall k | 0 <= k < 3 ensures OfferedStep(LateOffers(), 87, CHEAPER, k) { }
  }

  /** With a run of 30 literals a path of offered matches may cost less than what the
      dynamic program settles its end at, and takes. */
  lemma {:induction false} LongRunLoses()
    ensures Placed(LateOffers()) && LateOffers()(0) == Step(0, 5, 1)
    ensures var opt := TableOn(Seeded(1, 5), LateOffers(), 1);
      |opt| == 87 && LastEnd(opt, 86) == 86 && OfferedPath(LateOffers(), |opt|, CHEAPER) && End(CHEAPER) == 86
      && RunsBelow(CHEAPER, 31) && Cost(CHEAPER, 0) == 41 && opt[86].price == 42
  {
    hide Cost, SeqPrice, TableOn;
    Prices();
    assert Seeded(1, 5) == Stage(1);
    AllRounds(1);
    CheaperCosts();
    CheaperOffered();
  }
}
