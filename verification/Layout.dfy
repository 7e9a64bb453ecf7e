/**
 Planning the metadata area: where each inode goes, what follows it, and writing
 the area so that every inode is found at 32 times its number.
 */
module Layout {
  import opened Bytes
  import opened Arith
  import opened Spool
  import opened FileMap
  import opened ZTrailing

  const SLOT := 32           // inode numbers count slots
  const INODE_COMPACT := 32
  const INODE_EXTENDED := 64

  datatype InodeLayout = FlatPlain | FlatInline | ChunkBased | CompressedFull | CompressedCompact

  /** What an inode describes, as far as planning goes: sizes in bytes. */
  datatype Kind =
    | ZFile(fragment: bool, canCompact: bool, size: nat)
    | Chunks(indexes: nat)
    | Data(size: nat)          // a file stored flat
    | Empty
    | Directory(size: nat)     // the bytes of its entries
    | Link(size: nat)          // the bytes of its target
    | Special

  datatype Shape = Shape(core: nat, xattrs: nat, kind: Kind) {
    predicate Valid() { core == INODE_COMPACT || core == INODE_EXTENDED }
    function HeaderSize(): (n: nat) { core + xattrs }
  }

  datatype Plan = Plan(off: nat, layout: InodeLayout, trailing: nat)

  // ---- sizes -----------------------------------------------------------------------------

  function AlignUp(n: nat, to: nat): (r: nat)
    requires to > 0
    ensures n <= r < n + to
  {
    CeilBounds(n, to);
    to * CeilDiv(n, to)
  }

  lemma {:induction false} AlignedUp(n: nat, to: nat)
    requires to > 0
    ensures AlignUp(n, to) % to == 0 && (n % to == 0 ==> AlignUp(n, to) == n)
  {
    MulMod(CeilDiv(n, to), to);
    if n % to == 0 {
      DivExact(n, to);
      CeilUnique(n, to, n / to);
    }
  }

  /** The bytes that follow an inode's header, by layout. */
  function TrailingOf(bs: nat, s: Shape, layout: InodeLayout, off: nat): (n: nat)
    requires bs > 0
  {
    match s.kind
    case ZFile(fragment, _, size) => TrailingSize(fragment, layout == CompressedCompact, off, s.HeaderSize(), size, bs)
    case Chunks(indexes) => 8 * indexes
    case Data(size) => if layout == FlatInline then size else 0
    case Directory(size) => if layout == FlatInline then size else 0
    case Link(size) => if layout == FlatInline then size else 0
    case Empty => 0
    case Special => 0
  }

  /** The slots an inode takes. */
  function Span(s: Shape, p: Plan): (n: nat) { AlignUp(s.HeaderSize() + p.trailing, SLOT) }

  // ---- planning one inode -------------------------------------------------------------------

  /** Whether size bytes fit inline behind the header of an inode at off. */
  predicate FitsInline(bs: nat, s: Shape, off: nat, size: nat)
    requires bs > 0
  {
    off % bs + s.HeaderSize() + size <= bs
  }

  /** Where a small directory that misses its block goes: to the next one, when the
      padding costs no more than an external data block would. */
  predicate WorthMoving(bs: nat, s: Shape, off: nat, size: nat)
    requires bs > 0
  {
    (AlignUp(off, bs) - off) + AlignUp(s.HeaderSize() + size, SLOT) <= AlignUp(s.HeaderSize(), SLOT) + AlignUp(size, bs)
  }

  /** The layout of an inode that could start at off, and where it then starts. */
  function Choose(bs: nat, s: Shape, off: nat): (r: (nat, InodeLayout))
    requires bs > 0
    ensures off <= r.0
  {
    match s.kind
    case ZFile(_, canCompact, _) => (off, if canCompact then CompressedCompact else CompressedFull)
    case Chunks(_) => (off, ChunkBased)
    case Data(size) => (off, if FitsInline(bs, s, off, size) then FlatInline else FlatPlain)
    case Directory(size) =>
      if size > 0 && FitsInline(bs, s, off, size) then (off, FlatInline)
      else if size > 0 && s.HeaderSize() + size <= bs && WorthMoving(bs, s, off, size) then (AlignUp(off, bs), FlatInline)
      else (off, FlatPlain)
    case Link(size) => (off, if size > 0 && FitsInline(bs, s, off, size) then FlatInline else FlatPlain)
    case Empty => (off, FlatPlain)
    case Special => (off, FlatPlain)
  }

  /** p places an inode of shape s soundly, right after cur or less than a block on. */
  ghost predicate Placed(bs: nat, s: Shape, cur: nat, p: Plan) {
    bs > 0 && p.off % SLOT == 0 && cur <= p.off < cur + bs
    && p.off % bs + s.core <= bs
    && (p.layout == FlatInline ==> p.off % bs + s.HeaderSize() + p.trailing <= bs)
    && p.trailing == TrailingOf(bs, s, p.layout, p.off)
    && p.layout == Choose(bs, s, p.off).1
  }

  /** The first offset from cur on where the core does not cross a block. */
  function CoreStart(bs: nat, s: Shape, cur: nat): (off: nat)
    requires bs > 0
    ensures cur <= off < cur + bs
  {
    if cur % bs + s.core > bs then AlignUp(cur, bs) else cur
  }

  /** Inline data that would cross the block after all is moved out. */
  function Recheck(bs: nat, s: Shape, off: nat, layout: InodeLayout): (r: InodeLayout)
    requires bs > 0
  {
    if layout == FlatInline && !FitsInline(bs, s, off, TrailingOf(bs, s, layout, off)) then FlatPlain else layout
  }

  function PlanOne(bs: nat, s: Shape, cur: nat): (p: Plan)
    requires bs > 0
  {
    var (off, chosen) := Choose(bs, s, CoreStart(bs, s, cur));
    var layout := Recheck(bs, s, off, chosen);
    Plan(off, layout, TrailingOf(bs, s, layout, off))
  }

  /** At the start of a block everything that fits a block at all fits. */
  lemma {:induction false} AtBlockStart(bs: nat, s: Shape, cur: nat)
    requires bs > 0 && s.Valid() && INODE_EXTENDED <= bs
    ensures AlignUp(cur, bs) % bs == 0 && AlignUp(cur, bs) % bs + s.core <= bs
  {
    AlignedUp(cur, bs);
  }

  /** Choosing moves an inode only to a block start, and what it puts inline fits. */
  lemma {:induction false} ChooseFits(bs: nat, s: Shape, off: nat)
    requires bs > 0 && s.Valid() && off % bs + s.core <= bs && bs % SLOT == 0
    ensures var (to, layout) := Choose(bs, s, off);
      (to == off || (to == AlignUp(off, bs) && off % bs != 0)) && to % bs + s.core <= bs
      && (layout == FlatInline ==> FitsInline(bs, s, to, TrailingOf(bs, s, layout, to)))
      && layout == Choose(bs, s, to).1
  {
    hide TrailingSize, AlignUp;
    AlignedUp(off, bs);
  }

  lemma {:induction false} SlotAligned(bs: nat, n: nat)
    requires bs > 0 && bs % SLOT == 0
    ensures AlignUp(n, bs) % SLOT == 0
  {
    DivExact(bs, SLOT);
    var q, c := bs / SLOT, CeilDiv(n, bs);
    assert bs * c == SLOT * (q * c);
    MulMod(q * c, SLOT);
  }

  /** Every inode is placed soundly, wherever the previous one ended. */
  lemma {:induction false} PlanOnePlaced(bs: nat, s: Shape, cur: nat)
    requires INODE_EXTENDED <= bs && bs % SLOT == 0 && cur % SLOT == 0 && s.Valid()
    ensures Placed(bs, s, cur, PlanOne(bs, s, cur))
    ensures (PlanOne(bs, s, cur).off + Span(s, PlanOne(bs, s, cur))) % SLOT == 0
  {
    hide Choose, TrailingOf, AlignUp;
    var off := CoreStart(bs, s, cur);
    AtBlockStart(bs, s, cur);
    SlotAligned(bs, cur);
    ChooseFits(bs, s, off);
    AlignedUp(off, bs);
    SlotAligned(bs, off);
    AlignMoves(bs, cur, off);
    var p := PlanOne(bs, s, cur);
    AlignedUp(s.HeaderSize() + p.trailing, SLOT);
    SumMod(p.off, Span(s, p), SLOT);
  }

  /** An inode is moved at most once, by less than a block. */
  lemma {:induction false} AlignMoves(bs: nat, cur: nat, off: nat)
    requires bs > 0
    ensures off == cur || off == AlignUp(cur, bs) ==> off % bs != 0 ==> AlignUp(off, bs) < cur + bs
  {
    AlignedUp(cur, bs);
  }

  // ---- the whole area -----------------------------------------------------------------------

  /** Where the first n inodes end. */
  function EndOf(shapes: seq<Shape>, plans: seq<Plan>, n: nat): (r: nat)
    requires n <= |plans| <= |shapes|
  {
    if n == 0 then 0 else plans[n - 1].off + Span(shapes[n - 1], plans[n - 1])
  }

  /** All inodes are placed soundly, one after another. */
  ghost predicate Planned(bs: nat, shapes: seq<Shape>, plans: seq<Plan>) {
    |plans| <= |shapes|
    && forall k :: 0 <= k < |plans| ==> Placed(bs, shapes[k], EndOf(shapes, plans, k), plans[k])
  }

  /** The first n inodes planned, each where the one before it ends. */
  function PlanAll(bs: nat, shapes: seq<Shape>, n: nat): (plans: seq<Plan>)
    requires bs > 0 && n <= |shapes|
    ensures |plans| == n
  {
    if n == 0 then []
    else
      var front := PlanAll(bs, shapes, n - 1);
      front + [PlanOne(bs, shapes[n - 1], EndOf(shapes, front, n - 1))]
  }

  /** Numbers the inodes: all regions are ordered, no core and no inline tail crosses a
      block, and gaps are smaller than a block. */
  method PlanLayout(bs: nat, shapes: seq<Shape>) returns (plans: seq<Plan>)
    requires INODE_EXTENDED <= bs && bs % SLOT == 0 && forall s <- shapes :: s.Valid()
    ensures plans == PlanAll(bs, shapes, |shapes|) && Planned(bs, shapes, plans)
  {
    hide Placed, PlanOne, Span;
    plans := [];
    var cur := 0;
    while |plans| < |shapes|
      invariant |plans| <= |shapes| && plans == PlanAll(bs, shapes, |plans|) && Planned(bs, shapes, plans)
      invariant cur == EndOf(shapes, plans, |plans|) && cur % SLOT == 0
    {
      var s := shapes[|plans|];
      PlanOnePlaced(bs, s, cur);
      var p := PlanOne(bs, s, cur);
      ghost var before := plans;
      plans := plans + [p];
      cur := p.off + Span(s, p);
      forall k | 0 <= k < |plans| ensures Placed(bs, shapes[k], EndOf(shapes, plans, k), plans[k]) {
        assert EndOf(shapes, plans, k) == EndOf(shapes, before, k);
      }
    }
  }

  /** Regions are in order and do not overlap. */
  lemma {:induction false} RegionsOrdered(bs: nat, shapes: seq<Shape>, plans: seq<Plan>, j: nat, k: nat)
    requires Planned(bs, shapes, plans) && j < k < |plans|
    ensures plans[j].off + shapes[j].HeaderSize() + plans[j].trailing <= plans[j].off + Span(shapes[j], plans[j]) <= plans[k].off
    decreases k
  {
    hide Placed, AlignUp;
    PlacedAfter(bs, shapes, plans, k);
    if j < k - 1 { RegionsOrdered(bs, shapes, plans, j, k - 1); }
  }

  lemma {:induction false} PlacedAfter(bs: nat, shapes: seq<Shape>, plans: seq<Plan>, k: nat)
    requires Planned(bs, shapes, plans) && k < |plans|
    ensures EndOf(shapes, plans, k) <= plans[k].off < EndOf(shapes, plans, k) + bs
  {
    hide TrailingOf, Choose, Span;
    assert Placed(bs, shapes[k], EndOf(shapes, plans, k), plans[k]);
  }

  /** The size of the area, by walking it as the writer will. */
  method MetadataBytes(bs: nat, shapes: seq<Shape>, plans: seq<Plan>) returns (n: nat)
    requires |plans| == |shapes| && Planned(bs, shapes, plans)
    ensures n == EndOf(shapes, plans, |plans|)
  {
    hide Placed, AlignUp;
    n := 0;
    for k := 0 to |plans|
      invariant n == EndOf(shapes, plans, k)
    {
      PlacedAfter(bs, shapes, plans, k);
      if n < plans[k].off { n := plans[k].off; }
      n := n + Span(shapes[k], plans[k]);
    }
  }

  /** The size of the area, as the largest end of an inode. */
  method LargestEnd(bs: nat, shapes: seq<Shape>, plans: seq<Plan>) returns (n: nat)
    requires |plans| == |shapes| && Planned(bs, shapes, plans)
    ensures n == EndOf(shapes, plans, |plans|)
  {
    hide Placed, AlignUp;
    n := 0;
    for k := 0 to |plans|
      invariant n == EndOf(shapes, plans, k)
    {
      PlacedAfter(bs, shapes, plans, k);
      n := Max(n, plans[k].off + Span(shapes[k], plans[k]));
    }
  }

  // ---- writing it ----------------------------------------------------------------------------

  /** An inode's bytes: core, extended attributes, trailing data. */
  datatype InodeBytes = InodeBytes(core: seq<byte>, xattrs: seq<byte>, trailing: seq<byte>) {
    function All(): (r: seq<byte>) { core + xattrs + trailing }
  }

  /** The bytes are as long as planned. */
  predicate AsPlanned(s: Shape, p: Plan, b: InodeBytes) {
    |b.core| == s.core && |b.xattrs| == s.xattrs && |b.trailing| == p.trailing
  }

  /** Every inode so far stands at its offset. */
  ghost predicate Stands(buf: seq<byte>, plans: seq<Plan>, inodes: seq<InodeBytes>, n: nat)
    requires n <= |plans| == |inodes|
  {
    forall k :: 0 <= k < n ==> Slice(buf, plans[k].off, |inodes[k].All()|) == inodes[k].All()
  }

  lemma {:induction false} StandsGrows(buf: seq<byte>, more: seq<byte>, plans: seq<Plan>, inodes: seq<InodeBytes>, n: nat)
    requires n <= |plans| == |inodes| && Stands(buf, plans, inodes, n)
    requires forall k :: 0 <= k < n ==> plans[k].off + |inodes[k].All()| <= |buf|
    ensures Stands(buf + more, plans, inodes, n)
  {
    forall k | 0 <= k < n ensures Slice(buf + more, plans[k].off, |inodes[k].All()|) == inodes[k].All() {
      assert plans[k].off + |inodes[k].All()| <= |buf|;
    }
  }

  /** Writes one inode: zeros up to its offset, its bytes, zeros to the next slot. */
  method WriteOne(bs: nat, s: Shape, p: Plan, b: InodeBytes, buf: seq<byte>, zeroBuf: seq<byte>) returns (out: seq<byte>)
    requires |buf| <= p.off < |buf| + bs && SLOT <= bs && zeroBuf == Zeros(bs) && AsPlanned(s, p, b)
    ensures |out| == p.off + Span(s, p) && Slice(out, p.off, |b.All()|) == b.All()
    ensures out == buf + Zeros(p.off - |buf|) + b.All() + Zeros(Span(s, p) - |b.All()|)
  {
    out := buf;
    if p.off > |out| { out := out + zeroBuf[..p.off - |out|]; }
    out := out + b.core + b.xattrs + b.trailing;
    assert out == buf + Zeros(p.off - |buf|) + b.All();
    var total := s.HeaderSize() + p.trailing;
    BlockPad(SLOT, total);
    if total % SLOT != 0 { out := out + zeroBuf[..SLOT - total % SLOT]; }
  }

  lemma {:induction false} InodesInside(bs: nat, shapes: seq<Shape>, plans: seq<Plan>, inodes: seq<InodeBytes>, n: nat)
    requires |inodes| == |plans| == |shapes| && Planned(bs, shapes, plans) && n <= |plans|
    requires forall k :: 0 <= k < |plans| ==> AsPlanned(shapes[k], plans[k], inodes[k])
    ensures forall k :: 0 <= k < n ==> plans[k].off + |inodes[k].All()| <= EndOf(shapes, plans, n)
  {
    hide Planned, AlignUp;
    forall k | 0 <= k < n ensures plans[k].off + |inodes[k].All()| <= EndOf(shapes, plans, n) {
      assert AsPlanned(shapes[k], plans[k], inodes[k]);
      if k < n - 1 { RegionsOrdered(bs, shapes, plans, k, n - 1); }
    }
  }

  /** Writes the area: each inode at its offset, padded to whole blocks.  A gap never
      exceeds the block of zeros it is cut from. */
  method WriteMetadata(bs: nat, shapes: seq<Shape>, plans: seq<Plan>, inodes: seq<InodeBytes>, zeroBuf: seq<byte>)
    returns (buf: seq<byte>)
    requires |inodes| == |plans| == |shapes| && Planned(bs, shapes, plans) && SLOT <= bs && zeroBuf == Zeros(bs)
    requires forall k :: 0 <= k < |plans| ==> AsPlanned(shapes[k], plans[k], inodes[k])
    ensures |buf| == AlignUp(EndOf(shapes, plans, |plans|), bs) && Stands(buf, plans, inodes, |plans|)
  {
    hide Planned, Span, AlignUp, Stands;
    buf := [];
    var k := 0;
    StandsNone(plans, inodes);
    while k < |plans|
      invariant 0 <= k <= |plans| && |buf| == EndOf(shapes, plans, k) && Stands(buf, plans, inodes, k)
    {
      PlacedAfter(bs, shapes, plans, k);
      InodesInside(bs, shapes, plans, inodes, k);
      var more := WriteOne(bs, shapes[k], plans[k], inodes[k], buf, zeroBuf);
      StandsNext(buf, more, plans, inodes, k);
      buf := more;
      k := k + 1;
    }
    BlockPad(bs, |buf|);
    InodesInside(bs, shapes, plans, inodes, k);
    if |buf| % bs != 0 {
      StandsGrows(buf, zeroBuf[..bs - |buf| % bs], plans, inodes, k);
      buf := buf + zeroBuf[..bs - |buf| % bs];
    }
  }

  lemma {:induction false} StandsNone(plans: seq<Plan>, inodes: seq<InodeBytes>)
    requires |plans| == |inodes|
    ensures Stands([], plans, inodes, 0)
  {
  }

  lemma {:induction false} StandsNext(buf: seq<byte>, more: seq<byte>, plans: seq<Plan>, inodes: seq<InodeBytes>, k: nat)
    requires k < |plans| == |inodes| && Stands(buf, plans, inodes, k) && buf <= more
    requires forall j :: 0 <= j < k ==> plans[j].off + |inodes[j].All()| <= |buf|
    requires Slice(more, plans[k].off, |inodes[k].All()|) == inodes[k].All()
    ensures Stands(more, plans, inodes, k + 1)
  {
    assert more == buf + more[|buf|..];
    StandsGrows(buf, more[|buf|..], plans, inodes, k);
  }

  lemma {:induction false} BlockPad(bs: nat, n: nat)
    requires bs > 0
    ensures AlignUp(n, bs) == if n % bs == 0 then n else n + (bs - n % bs)
  {
    AlignedUp(n, bs);
    if n % bs != 0 {
      assert n == bs * (n / bs) + n % bs;
      assert bs * (n / bs + 1) == bs * (n / bs) + bs;
      CeilUnique(n, bs, n / bs + 1);
    }
  }
}
