/**
 A whole image, written and read: a reader that knows an inode's number, or its name
 in a directory, finds the node's bytes behind the inode, in the blocks it points to,
 in the compressed region, or in the packed inode.
 */
module ImageReads {
  import opened Bytes
  import opened Arith
  import opened Spool
  import opened FileMap
  import opened FlatRead
  import opened ZFile
  import opened Dirents
  import opened ZRead
  import opened ZTrailing
  import opened ZLoad
  import opened ReadBack
  import opened Layout
  import opened InodeCore
  import opened ImageWriter
  import opened ImageBuilder

  /** The bytes behind an inode's header, as a reader addresses them. */
  lemma {:induction false} TrailingInImage(bs: nat, image: seq<byte>, metaAddr: nat, s: Shape, p: Plan, b: InodeBytes)
    requires InodeIn(bs, image, metaAddr, s, p, b)
    ensures var at := bs * metaAddr + p.off + s.HeaderSize();
      at + |b.trailing| <= |image| && Slice(image, at, |b.trailing|) == b.trailing
  {
    hide FitsInline;
    SliceInside(image, bs * metaAddr + p.off, b.All(), s.HeaderSize(), |b.trailing|);
    assert Slice(b.All(), s.HeaderSize(), |b.trailing|) == b.trailing;
  }

  lemma {:induction false} SlotOfBlock(bs: nat, addr: nat)
    requires bs > 0 && bs % SLOT == 0
    ensures (bs * addr) % SLOT == 0
  {
    DivExact(bs, SLOT);
    assert bs * addr == SLOT * (bs / SLOT * addr);
    MulMod(bs / SLOT * addr, SLOT);
  }

  lemma {:induction false} SlotIsEight(n: nat)
    requires n % SLOT == 0
    ensures n % 8 == 0
  {
  }

  /** A compressed inode of the image describes its file. */
  lemma {:induction false} CompressedInImage(bs: nat, image: seq<byte>, metaAddr: nat, s: Shape, p: Plan, b: InodeBytes,
                                             z: ZInfo, size: nat, entries: seq<IndexEntry>)
    requires InodeIn(bs, image, metaAddr, s, p, b) && Writable(z, p.layout == CompressedCompact)
    requires TrailingHolds(z, p.layout == CompressedCompact, p.off, s.HeaderSize(), b.trailing, entries)
    requires z.Extents? ==> size == |z.mapping.Content()|
    ensures Described(image, Located(bs * metaAddr, p.off, s.HeaderSize(), size, p.layout == CompressedCompact), z, b.trailing, entries)
  {
    hide TrailingHolds, Writable, FitsInline, AsPlanned;
    TrailingInImage(bs, image, metaAddr, s, p, b);
    SlotOfBlock(bs, metaAddr);
    SlotIsEight(p.off);
  }

  /** Inline data is read back from behind its inode. */
  lemma {:induction false} InlineInImage(bs: nat, image: seq<byte>, metaAddr: nat, s: Shape, p: Plan, b: InodeBytes)
    requires InodeIn(bs, image, metaAddr, s, p, b) && p.layout == FlatInline
    ensures FlatAt(bs, image, FlatInode(true, 0, bs * metaAddr + p.off + s.HeaderSize(), |b.trailing|), b.trailing)
  {
    hide Slice;
    TrailingInImage(bs, image, metaAddr, s, p, b);
    InlineOffset(bs, metaAddr, p.off, s.HeaderSize(), p.trailing);
  }

  lemma {:induction false} InlineOffset(bs: nat, addr: nat, off: nat, h: nat, n: nat)
    requires bs > 0 && off % bs + h + n <= bs
    ensures (bs * addr + off + h) % bs + n <= bs
  {
    MulMod(addr, bs);
    SumMod(bs * addr, off + h, bs);
    var r := off % bs;
    assert off == bs * (off / bs) + r;
    if r + h < bs {
      DivUnique(off + h, bs, off / bs, r + h);
    } else {
      assert bs * (off / bs + 1) == bs * (off / bs) + bs;
      DivUnique(off + h, bs, off / bs + 1, 0);
    }
  }

  /** External data is read back from the blocks its inode points to. */
  lemma {:induction false} ExternalInImage(bs: nat, image: seq<byte>, addr: nat, data: seq<byte>)
    requires bs > 0 && Written(bs, image, addr, data)
    ensures FlatAt(bs, image, FlatInode(false, addr, 0, |data|), data)
  {
  }

  /** The compressed region of the image maps every file whose extents were stored in it. */
  lemma {:induction false} FileInImage(bs: nat, image: seq<byte>, compBase: nat, spool: seq<byte>, blocks: nat, extents: seq<Extent>,
                                       raws: seq<seq<byte>>)
    requires 512 <= bs && StoredAs(bs, spool, extents, raws) && Aligned(bs, raws) && |spool| == bs * blocks
    requires compBase + blocks < 0x1_0000_0000 && Written(bs, image, compBase, spool)
    ensures Mapped(image, FileMapping(bs, compBase, extents, raws))
  {
    hide StoredAs, Aligned, Mapped;
    if |spool| > 0 { assert image[bs * compBase..bs * compBase + |spool|] == spool; }
    PlacedMapped(image, bs, compBase, spool, blocks, extents, raws);
  }

  // ---- reading an inode by its number --------------------------------------------------------------

  /** What a reader makes of the inode with this number.  It reads to the end of the
      block, and 64 bytes when fewer are left in it. */
  function InfoAt(bs: nat, image: seq<byte>, metaAddr: nat, built: Stamp, nid: nat): (r: Option<(Core, bool)>)
    requires bs > 0
  {
    var addr := bs * metaAddr + SLOT * nid;
    var n := Max(bs - addr % bs, INODE_EXTENDED);
    var b := Slice(image, addr, n);
    if |b| < n then None else GetCore(b, built)
  }

  /** The bytes a reader asks for start with the inode's core. */
  lemma {:induction false} StartsWith(image: seq<byte>, addr: nat, core: seq<byte>, more: seq<byte>, n: nat)
    requires Slice(image, addr, |core + more|) == core + more && addr + n <= |image| && |core| <= n && core != []
    ensures Slice(image, addr, n) == core + Slice(image, addr, n)[|core|..]
  {
    var got := Slice(image, addr, n);
    assert image[addr..addr + |core + more|] == core + more;
    assert got[..|core|] == core by {
      forall j | 0 <= j < |core| ensures got[j] == core[j] {
        assert image[addr..addr + |core + more|][j] == (core + more)[j];
      }
    }
  }

  lemma {:induction false} RestInside(bs: nat, blocks: nat, addr: nat)
    requires bs > 0 && addr < bs * blocks
    ensures addr + (bs - addr % bs) <= bs * blocks
  {
    var q := addr / bs;
    assert addr == bs * q + addr % bs;
    if q >= blocks { MulMonotone(bs, blocks, q); }
    MulMonotone(bs, q + 1, blocks);
    assert bs * (q + 1) == bs * q + bs;
  }

  /** Whether 64 bytes of the image follow an inode's start. */
  predicate Legible(image: seq<byte>, start: nat) { start + INODE_EXTENDED <= |image| }

  /** A written core reads back, with the image's time for a compact one, exactly when 64
      bytes can be read. */
  lemma {:induction false} InfoReads(bs: nat, image: seq<byte>, blocks: nat, metaAddr: nat, s: Shape, p: Plan, b: InodeBytes,
                                     c: Core, compact: bool, built: Stamp)
    requires INODE_EXTENDED <= bs && |image| == bs * blocks && InodeIn(bs, image, metaAddr, s, p, b)
    requires Recordable(c) && (compact ==> Small(c)) && b.core == PutCore(c, compact)
    ensures InfoAt(bs, image, metaAddr, built, p.off / SLOT)
         == if Legible(image, bs * metaAddr + p.off) then Some((Timed(c, compact, built), compact)) else None
  {
    hide PutCompact, PutExtended, GetCore, Slice, FitsInline, AsPlanned;
    var addr := bs * metaAddr + p.off;
    DivExact(p.off, SLOT);
    assert b.All() == b.core + (b.xattrs + b.trailing);
    RestInside(bs, blocks, addr);
    var n := Max(bs - addr % bs, INODE_EXTENDED);
    if Legible(image, addr) {
      StartsWith(image, addr, b.core, b.xattrs + b.trailing, n);
      SliceSize(image, addr, n);
      CoreRoundTrip(c, compact, Slice(image, addr, n)[|b.core|..], built);
    } else {
      SliceTooFar(image, addr, n);
    }
  }

  /** A core as it is read: a compact one has the image's time. */
  function Timed(c: Core, compact: bool, built: Stamp): (r: Core) {
    if compact then c.(mtime := built.sec, mtimeNs := built.ns) else c
  }

  lemma {:induction false} SliceSize(image: seq<byte>, at: nat, n: nat)
    requires at + n <= |image|
    ensures |Slice(image, at, n)| == n
  {
  }

  lemma {:induction false} SliceTooFar(image: seq<byte>, at: nat, n: nat)
    requires at + n > |image| && n > 0
    ensures |Slice(image, at, n)| < n
  {
  }

  /** An inode of a built image is not legible if and only if it is compact and takes the
      last 32 bytes of the image. */
  lemma {:induction false} LastSlotLost(bs: nat, nodes: seq<Node>, img: Built, blocks: nat, k: nat, b: InodeBytes, e: seq<IndexEntry>)
    requires bs > 0 && k < |nodes| == |img.plans| == |img.a.data| && NodeIn(bs, nodes, img, k, b, e) && |img.image| == bs * blocks
    ensures var start := bs * img.a.meta + img.plans[k].off;
      !Legible(img.image, start) <==> nodes[k].compact && start + INODE_COMPACT == |img.image|
  {
    hide Behind, CoreOf, Suits, Recordable, Small, DataIn, KindOf, FitsInline, Slice, PutCompact, PutExtended;
    SlotOfBlock(bs, img.a.meta);
    SlotOfBlock(bs, blocks);
    SumMod(bs * img.a.meta, img.plans[k].off, SLOT);
  }

  // ---- opening an inode ----------------------------------------------------------------------------

  /** A file as a reader opens it. */
  datatype File = FlatFile(fi: FlatInode) | Zipped(o: Opened, size: nat)

  function HeaderEnd(c: Core, compact: bool): (n: nat) { (if compact then INODE_COMPACT else INODE_EXTENDED) + c.xattrs }

  function FlatOf(bs: nat, metaAddr: nat, nid: nat, c: Core, compact: bool): (fi: FlatInode) {
    if c.layout == FlatInline then FlatInode(true, c.data, bs * metaAddr + SLOT * nid + HeaderEnd(c, compact), c.size)
    else FlatInode(false, c.data, 0, c.size)
  }

  function LocatedOf(bs: nat, metaAddr: nat, nid: nat, c: Core, compact: bool): (l: Located) {
    Located(bs * metaAddr, SLOT * nid, HeaderEnd(c, compact), c.size, c.layout == CompressedCompact)
  }

  predicate IsFlat(layout: InodeLayout) { layout == FlatPlain || layout == FlatInline }

  /** What opening an inode with this core gives; chunked files are not opened here. */
  ghost predicate OpensNode(r: Option<File>, bs: nat, image: seq<byte>, metaAddr: nat, nid: nat, c: Core, compact: bool)
    requires bs > 0
  {
    if IsFlat(c.layout) then r == Some(FlatFile(FlatOf(bs, metaAddr, nid, c, compact)))
    else if c.layout == ChunkBased then r == None
    else OpensZipped(r, bs, image, LocatedOf(bs, metaAddr, nid, c, compact))
  }

  ghost predicate OpensZipped(r: Option<File>, bs: nat, image: seq<byte>, l: Located)
    requires bs > 0
  {
    var h := ZLoad.HeaderAt(image, l);
    (r.Some? <==> Supported(bs) && h.Some?) && (r.Some? ==> r.value.Zipped? && r.value.size == l.size && OpensAs(r.value.o, image, bs, l, h.value))
  }

  /** Opens the inode with this number. */
  method OpenNode(bs: nat, image: seq<byte>, metaAddr: nat, built: Stamp, nid: nat) returns (r: Option<File>)
    requires bs > 0
    ensures var info := InfoAt(bs, image, metaAddr, built, nid);
      if info.None? then r == None else OpensNode(r, bs, image, metaAddr, nid, info.value.0, info.value.1)
    ensures r.Some? && r.value.Zipped? && r.value.o.Own? ==>
      fresh(r.value.o.inode) && r.value.o.inode.extStartLcn == -1 && r.value.o.inode.extEndLcn == 0
  {
    hide InfoAt, OpensAs, ZLoad.HeaderAt;
    var info := InfoAt(bs, image, metaAddr, built, nid);
    if info.None? { return None; }
    var (c, compact) := info.value;
    if IsFlat(c.layout) { return Some(FlatFile(FlatOf(bs, metaAddr, nid, c, compact))); }
    if c.layout == ChunkBased { return None; }
    var l := LocatedOf(bs, metaAddr, nid, c, compact);
    var o := Open(image, bs, l);
    r := if o.None? then None else Some(Zipped(o.value, c.size));
  }

  // ---- what the nodes hold -------------------------------------------------------------------------

  /** The bytes of the packed inode. */
  function PackedOf(nodes: seq<Node>, pk: nat): (r: seq<byte>) {
    if pk < |nodes| && nodes[pk].content.Stored? then Flatten(nodes[pk].content.raws) else []
  }

  /** What a reader of node k should get. */
  function ContentOf(bs: nat, nodes: seq<Node>, pk: nat, plans: seq<Plan>, k: nat): (r: seq<byte>)
    requires bs > 0 && k < |nodes|
  {
    match nodes[k].content
    case Stored(_, raws, _) => Flatten(raws)
    case InPacked(off, size) => Slice(PackedOf(nodes, pk), off, size)
    case Flat(bytes) => bytes
    case Target(bytes) => bytes
    case Listing(children) => ListingBytes(bs, children, plans)
    case _ => []
  }

  /** A small file lies inside the packed inode. */
  predicate Inside(nodes: seq<Node>, pk: nat, k: nat)
    requires k < |nodes|
  {
    match nodes[k].content case InPacked(off, size) => off + size <= |PackedOf(nodes, pk)| case _ => true
  }

  /** Everything about node k of an image. */
  ghost predicate Known(bs: nat, nodes: seq<Node>, pk: nat, spool: seq<byte>, blocks: nat, img: Built, total: nat, k: nat, b: InodeBytes,
                        e: seq<IndexEntry>)
  {
    Supported(bs) && bs % SLOT == 0 && k < |nodes| == |img.plans| == |img.a.data| && |img.image| == bs * total
    && NodeIn(bs, nodes, img, k, b, e) && Ready(bs, spool, nodes[k]) && |spool| == bs * blocks && Addressable(img.a.compBase, blocks)
    && Written(bs, img.image, img.a.compBase, spool) && Inside(nodes, pk, k) && !nodes[k].content.Chunked?
  }

  function Start(bs: nat, img: Built, k: nat): (r: nat)
    requires k < |img.plans|
  {
    bs * img.a.meta + img.plans[k].off
  }

  /** The core of node k as a reader finds it. */
  function CoreRead(bs: nat, nodes: seq<Node>, img: Built, k: nat, built: Stamp): (c: Core)
    requires bs > 0 && k < |nodes| == |img.plans| == |img.a.data|
  {
    Timed(CoreOf(bs, nodes[k], img.plans[k].layout, img.a.data[k]), nodes[k].compact, built)
  }

  lemma {:induction false} NodeInfo(bs: nat, nodes: seq<Node>, pk: nat, spool: seq<byte>, blocks: nat, img: Built, total: nat, k: nat,
                                    b: InodeBytes, e: seq<IndexEntry>, built: Stamp)
    requires Known(bs, nodes, pk, spool, blocks, img, total, k, b, e)
    ensures InfoAt(bs, img.image, img.a.meta, built, Number(img.plans, k))
         == if Legible(img.image, Start(bs, img, k)) then Some((CoreRead(bs, nodes, img, k, built), nodes[k].compact)) else None
  {
    hide InodeIn, Behind, CoreOf, Suits, Recordable, Small, DataIn, KindOf, InfoAt, Ready, Written, PutCore, Timed, Inside;
    InfoReads(bs, img.image, total, img.a.meta, ShapeOf(bs, nodes[k]), img.plans[k], b,
              CoreOf(bs, nodes[k], img.plans[k].layout, img.a.data[k]), nodes[k].compact, built);
  }

  lemma {:induction false} InlineNode(bs: nat, nodes: seq<Node>, pk: nat, img: Built, k: nat, b: InodeBytes, e: seq<IndexEntry>, built: Stamp)
    requires bs > 0 && k < |nodes| == |img.plans| == |img.a.data| && NodeIn(bs, nodes, img, k, b, e)
    requires img.plans[k].layout == FlatInline
    ensures FlatAt(bs, img.image, FlatOf(bs, img.a.meta, Number(img.plans, k), CoreRead(bs, nodes, img, k, built), nodes[k].compact),
                   ContentOf(bs, nodes, pk, img.plans, k))
  {
    hide InodeIn, Recordable, Small, DataIn, KindOf, PutCore, ListingBytes, FlatAt, Slice, Flatten, TrailingHolds, Writable;
    InlineInImage(bs, img.image, img.a.meta, ShapeOf(bs, nodes[k]), img.plans[k], b);
    SlotsOf(bs, img.image, img.a.meta, ShapeOf(bs, nodes[k]), img.plans[k], b);
    var c := CoreRead(bs, nodes, img, k, built);
    FlatAnyData(bs, img.image, bs * img.a.meta + img.plans[k].off + ShapeOf(bs, nodes[k]).HeaderSize(), c.data, b.trailing);
  }

  lemma {:induction false} SlotsOf(bs: nat, image: seq<byte>, metaAddr: nat, s: Shape, p: Plan, b: InodeBytes)
    requires InodeIn(bs, image, metaAddr, s, p, b)
    ensures SLOT * (p.off / SLOT) == p.off
  {
    DivExact(p.off, SLOT);
  }

  /** Inline data does not depend on the address field. */
  lemma {:induction false} FlatAnyData(bs: nat, image: seq<byte>, at: nat, data: nat, content: seq<byte>)
    requires FlatAt(bs, image, FlatInode(true, 0, at, |content|), content)
    ensures FlatAt(bs, image, FlatInode(true, data, at, |content|), content)
  {
  }

  lemma {:induction false} PlainNode(bs: nat, nodes: seq<Node>, pk: nat, img: Built, k: nat, b: InodeBytes, e: seq<IndexEntry>, built: Stamp)
    requires bs > 0 && k < |nodes| == |img.plans| == |img.a.data| && NodeIn(bs, nodes, img, k, b, e)
    requires img.plans[k].layout == FlatPlain && !nodes[k].content.Device?
    ensures FlatAt(bs, img.image, FlatOf(bs, img.a.meta, Number(img.plans, k), CoreRead(bs, nodes, img, k, built), nodes[k].compact),
                   ContentOf(bs, nodes, pk, img.plans, k))
  {
    hide InodeIn, Recordable, Small, Behind, KindOf, PutCore, ListingBytes, FlatAt, Slice, Flatten, Written;
    NothingAt(bs, img.image);
    if ContentOf(bs, nodes, pk, img.plans, k) != [] {
      ExternalInImage(bs, img.image, img.a.data[k], ContentOf(bs, nodes, pk, img.plans, k));
    }
  }

  lemma {:induction false} NothingAt(bs: nat, image: seq<byte>)
    requires bs > 0
    ensures FlatAt(bs, image, FlatInode(false, 0, 0, 0), [])
  {
  }

  /** A compressed node of the image is described to the reader. */
  lemma {:induction false} ZippedNode(bs: nat, nodes: seq<Node>, img: Built, k: nat, b: InodeBytes, e: seq<IndexEntry>, built: Stamp)
    requires bs > 0 && k < |nodes| == |img.plans| == |img.a.data| && NodeIn(bs, nodes, img, k, b, e)
    requires nodes[k].content.Stored? || nodes[k].content.InPacked?
    ensures var l := LocatedOf(bs, img.a.meta, Number(img.plans, k), CoreRead(bs, nodes, img, k, built), nodes[k].compact);
      Described(img.image, l, ZOf(bs, nodes[k].content, img.a.compBase), b.trailing, e) && l.size == SizeOf(bs, nodes[k].content)
  {
    hide InodeIn, Recordable, Small, DataIn, KindOf, PutCore, Slice, Flatten, TrailingHolds, Writable, FileMapping, Described;
    SlotsOf(bs, img.image, img.a.meta, ShapeOf(bs, nodes[k]), img.plans[k], b);
    var content := nodes[k].content;
    if content.Stored? { FileMappingIs(bs, img.a.compBase, content.extents, content.raws); }
    CompressedInImage(bs, img.image, img.a.meta, ShapeOf(bs, nodes[k]), img.plans[k], b, ZOf(bs, content, img.a.compBase),
                      SizeOf(bs, content), e);
  }

  // ---- loading -------------------------------------------------------------------------------------

  /** The packed inode is open and holds these bytes. */
  ghost predicate PackedOpen(packed: Inode, bs: nat, v: View, bytes: seq<byte>)
    reads packed
  {
    0 < bs == packed.bs && packed.Indexed(v.m, v.eof) && packed.CacheOk(v.m) && v.m.Content() == bytes
  }

  /** What a loaded block of a compressed file gives from its position on. */
  lemma {:induction false} BlockFrom(content: seq<byte>, bs: nat, pos: nat)
    requires bs > 0 && pos < |content|
    ensures var blk := BlockOf(content, bs, pos); blk.offset <= |blk.bytes| && blk.bytes[blk.offset..] == RestOfBlock(bs, content, pos)
  {
    hide Slice, CeilDiv;
    BlockRest(content, bs, pos);
    var n := BlockLen(bs, |content|, pos / bs);
    assert pos == bs * (pos / bs) + pos % bs;
    assert Min(bs * (pos / bs) + bs, |content|) - pos == n - pos % bs;
  }

  /** Opens a compressed node over its own extents. */
  lemma {:induction false} OwnNode(bs: nat, nodes: seq<Node>, pk: nat, spool: seq<byte>, blocks: nat, img: Built, total: nat, k: nat, b: InodeBytes,
                                   e: seq<IndexEntry>, built: Stamp, f: Option<File>) returns (v: View)
    requires Known(bs, nodes, pk, spool, blocks, img, total, k, b, e) && nodes[k].content.Stored?
    requires OpensZipped(f, bs, img.image, LocatedOf(bs, img.a.meta, Number(img.plans, k), CoreRead(bs, nodes, img, k, built), nodes[k].compact))
    requires f.Some? && f.value.Zipped? && f.value.o.Own? ==> f.value.o.inode.extStartLcn == -1 && f.value.o.inode.extEndLcn == 0
    ensures f.Some? && f.value.Zipped? && f.value.o.Own? && f.value.size == |ContentOf(bs, nodes, pk, img.plans, k)|
    ensures Serves(f.value.o, f.value.o.inode, bs, v, ContentOf(bs, nodes, pk, img.plans, k))
  {
    hide NodeIn, CoreRead, Flatten, FileMapping, Described, Mapped, StoredAs, Aligned, Written, OpensAs, Inside, ZLoad.HeaderAt, LocatedOf, CoreFits;
    var content, base := nodes[k].content, img.a.compBase;
    var l := LocatedOf(bs, img.a.meta, Number(img.plans, k), CoreRead(bs, nodes, img, k, built), nodes[k].compact);
    var m := FileMapping(bs, base, content.extents, content.raws);
    v := View(m, !l.compact);
    ZippedNode(bs, nodes, img, k, b, e, built);
    FileMappingIs(bs, base, content.extents, content.raws);
    FileInImage(bs, img.image, base, spool, blocks, content.extents, content.raws);
    DescribedHeader(img.image, l, Extents(m), b.trailing, e);
    IndexArrayOwn(f.value.o, img.image, bs, l);
    OpenServes(f.value.o, l, m, img.image, b.trailing, e);
  }

  /** Opens a small file: its header gives its offset in the packed inode. */
  lemma {:induction false} SmallNode(bs: nat, nodes: seq<Node>, pk: nat, spool: seq<byte>, blocks: nat, img: Built, total: nat, k: nat, b: InodeBytes,
                                     e: seq<IndexEntry>, built: Stamp, f: Option<File>)
    requires Known(bs, nodes, pk, spool, blocks, img, total, k, b, e) && nodes[k].content.InPacked?
    requires OpensZipped(f, bs, img.image, LocatedOf(bs, img.a.meta, Number(img.plans, k), CoreRead(bs, nodes, img, k, built), nodes[k].compact))
    ensures f == Some(Zipped(Opened.InPacked(nodes[k].content.fragOff), nodes[k].content.size))
    ensures |ContentOf(bs, nodes, pk, img.plans, k)| == nodes[k].content.size
  {
    hide NodeIn, CoreRead, Flatten, Described, Written, ZLoad.HeaderAt, LocatedOf, CoreFits;
    var l := LocatedOf(bs, img.a.meta, Number(img.plans, k), CoreRead(bs, nodes, img, k, built), nodes[k].compact);
    ZippedNode(bs, nodes, img, k, b, e, built);
    DescribedHeader(img.image, l, ZOf(bs, nodes[k].content, img.a.compBase), b.trailing, e);
  }

  /** Loads from a compressed file at pos. */
  method LoadZipped(o: Opened, packed: Inode, bs: nat, size: nat, pos: nat, ghost v: View, ghost content: seq<byte>) returns (r: Option<seq<byte>>)
    requires Serves(o, packed, bs, v, content) && pos < size == |content|
    modifies Backing(o, packed)
    ensures bs > 0 && Serves(o, packed, bs, v, content) && r == Some(RestOfBlock(bs, content, pos))
  {
    hide Serves, BlockOf, RestOfBlock;
    var blk := ZLoad.LoadBlock(o, packed, bs, size, v, content, pos);
    BlockFrom(content, bs, pos);
    r := Some(blk.value.bytes[blk.value.offset..]);
  }

  lemma {:induction false} SizeIs(bs: nat, nodes: seq<Node>, pk: nat, plans: seq<Plan>, k: nat)
    requires bs > 0 && k < |nodes| && Inside(nodes, pk, k) && !nodes[k].content.Chunked?
    ensures |ContentOf(bs, nodes, pk, plans, k)| == SizeOf(bs, nodes[k].content)
  {
    hide Flatten, PackedOf;
  }

  /** What a reader of node k gets at pos, when the inode is legible or not and the packed
      inode open or not. */
  function Loads(bs: nat, nodes: seq<Node>, pk: nat, plans: seq<Plan>, k: nat, pos: nat, legible: bool, small: bool): (r: Option<seq<byte>>)
    requires bs > 0 && k < |nodes|
  {
    var content := ContentOf(bs, nodes, pk, plans, k);
    if !legible || pos >= |content| || (nodes[k].content.InPacked? && !small) then None else Some(RestOfBlock(bs, content, pos))
  }

  /** A flat node of the image holds its content, unless it is a device. */
  lemma {:induction false} FlatNode(bs: nat, nodes: seq<Node>, pk: nat, spool: seq<byte>, blocks: nat, img: Built, total: nat, k: nat, b: InodeBytes,
                                    e: seq<IndexEntry>, built: Stamp)
    requires Known(bs, nodes, pk, spool, blocks, img, total, k, b, e) && !nodes[k].content.Stored? && !nodes[k].content.InPacked?
    ensures IsFlat(CoreRead(bs, nodes, img, k, built).layout)
    ensures !nodes[k].content.Device? ==>
      FlatAt(bs, img.image, FlatOf(bs, img.a.meta, Number(img.plans, k), CoreRead(bs, nodes, img, k, built), nodes[k].compact),
             ContentOf(bs, nodes, pk, img.plans, k))
  {
    hide FlatAt, ContentOf, InodeIn, Behind, DataIn, Recordable, Small, PutCore, KindOf, SizeOf, DataField, Ready, Written, Inside, FlatOf;
    if img.plans[k].layout == FlatInline {
      InlineNode(bs, nodes, pk, img, k, b, e, built);
    } else if !nodes[k].content.Device? {
      PlainNode(bs, nodes, pk, img, k, b, e, built);
    }
  }

  lemma {:induction false} CoreFacts(bs: nat, nodes: seq<Node>, img: Built, k: nat, built: Stamp)
    requires bs > 0 && k < |nodes| == |img.plans| == |img.a.data|
    ensures var c := CoreRead(bs, nodes, img, k, built); c.layout == img.plans[k].layout && c.size == SizeOf(bs, nodes[k].content)
  {
  }

  lemma {:induction false} KnownFacts(bs: nat, nodes: seq<Node>, pk: nat, spool: seq<byte>, blocks: nat, img: Built, total: nat, k: nat, b: InodeBytes,
                                      e: seq<IndexEntry>)
    requires Known(bs, nodes, pk, spool, blocks, img, total, k, b, e)
    ensures Supported(bs) && 512 <= bs && k < |nodes| == |img.plans| == |img.a.data| && Inside(nodes, pk, k) && !nodes[k].content.Chunked?
    ensures Suits(nodes[k].content, img.plans[k].layout)
  {
    hide InodeIn, Behind, DataIn, Recordable, Small, PutCore, CoreOf, Ready, Written, Inside;
  }

  /** What opening node k gives. */
  ghost predicate OpenedNode(f: Option<File>, bs: nat, nodes: seq<Node>, pk: nat, img: Built, k: nat, built: Stamp)
    requires bs > 0 && k < |nodes| == |img.plans| == |img.a.data|
  {
    var content, c := nodes[k].content, CoreRead(bs, nodes, img, k, built);
    if !Legible(img.image, Start(bs, img, k)) then f == None
    else if content.Stored? then OpensZipped(f, bs, img.image, LocatedOf(bs, img.a.meta, Number(img.plans, k), c, nodes[k].compact))
    else if content.InPacked? then f == Some(Zipped(Opened.InPacked(content.fragOff), content.size))
    else
      f == Some(FlatFile(FlatOf(bs, img.a.meta, Number(img.plans, k), c, nodes[k].compact)))
      && f.value.fi.size == |ContentOf(bs, nodes, pk, img.plans, k)|
      && (!content.Device? ==> FlatAt(bs, img.image, f.value.fi, ContentOf(bs, nodes, pk, img.plans, k)))
  }

  lemma {:induction false} OpensIt(bs: nat, nodes: seq<Node>, pk: nat, spool: seq<byte>, blocks: nat, img: Built, total: nat, k: nat, b: InodeBytes,
                                   e: seq<IndexEntry>, built: Stamp, f: Option<File>)
    requires Known(bs, nodes, pk, spool, blocks, img, total, k, b, e)
    requires var info := InfoAt(bs, img.image, img.a.meta, built, Number(img.plans, k));
      if info.None? then f == None else OpensNode(f, bs, img.image, img.a.meta, Number(img.plans, k), info.value.0, info.value.1)
    ensures OpenedNode(f, bs, nodes, pk, img, k, built)
  {
    hide Known, InfoAt, CoreRead, OpensZipped, LocatedOf, FlatAt, ContentOf, Inside;
    KnownFacts(bs, nodes, pk, spool, blocks, img, total, k, b, e);
    NodeInfo(bs, nodes, pk, spool, blocks, img, total, k, b, e, built);
    CoreFacts(bs, nodes, img, k, built);
    SizeIs(bs, nodes, pk, img.plans, k);
    if Legible(img.image, Start(bs, img, k)) {
      if nodes[k].content.InPacked? {
        SmallNode(bs, nodes, pk, spool, blocks, img, total, k, b, e, built, f);
      } else if !nodes[k].content.Stored? {
        FlatNode(bs, nodes, pk, spool, blocks, img, total, k, b, e, built);
      }
    }
  }

  /** A small file is served by the packed inode. */
  lemma {:induction false} SmallServes(packed: Inode, bs: nat, v: View, bytes: seq<byte>, off: nat, size: nat)
    requires off + size <= |bytes| && v.m.Content() == bytes
    ensures PackedOpen(packed, bs, v, bytes) <==> Serves(Opened.InPacked(off), packed, bs, v, Slice(bytes, off, size))
  {
    hide Inode.Indexed, Inode.CacheOk, Flatten;
  }

  /** Reads the node with this number at pos, up to the end of its block. */
  method LoadAt(bs: nat, img: Built, built: Stamp, packed: Inode?, nid: nat, pos: nat, ghost nodes: seq<Node>, ghost pk: nat, ghost spool: seq<byte>,
                ghost blocks: nat, ghost total: nat, ghost k: nat, ghost b: InodeBytes, ghost e: seq<IndexEntry>, ghost v: View)
    returns (r: Option<seq<byte>>)
    requires Known(bs, nodes, pk, spool, blocks, img, total, k, b, e) && nid == Number(img.plans, k)
    requires packed != null ==> PackedOpen(packed, bs, v, PackedOf(nodes, pk))
    modifies packed
    ensures packed != null ==> PackedOpen(packed, bs, v, PackedOf(nodes, pk))
    ensures r == Loads(bs, nodes, pk, img.plans, k, pos, Legible(img.image, Start(bs, img, k)), packed != null)
  {
    hide Known, NodeIn, OpensNode, InfoAt, PackedOpen, PackedOf, Inside, ContentOf, CoreRead, OpensZipped, FlatAt, FlatOf, LocatedOf, RestOfBlock, Serves, Suits, Number;
    KnownFacts(bs, nodes, pk, spool, blocks, img, total, k, b, e);
    var f := OpenNode(bs, img.image, img.a.meta, built, nid);
    OpensIt(bs, nodes, pk, spool, blocks, img, total, k, b, e, built, f);
    ghost var content := ContentOf(bs, nodes, pk, img.plans, k);
    ghost var own := v;
    if nodes[k].content.Stored? && Legible(img.image, Start(bs, img, k)) {
      own := OwnNode(bs, nodes, pk, spool, blocks, img, total, k, b, e, built, f);
    }
    if nodes[k].content.InPacked? { SmallIs(bs, nodes, pk, img.plans, k); }
    if nodes[k].content.Device? { DeviceIs(bs, nodes, pk, img.plans, k); }
    if f.None? { return None; }
    match f.value {
      case FlatFile(fi) =>
        if pos >= fi.size { return None; }
        var load := FlatRead.LoadBlock(bs, img.image, fi, pos, content);
        r := if load.Loaded? then Some(load.bytes) else None;
      case Zipped(o, size) =>
        if pos >= size { return None; }
        if o.Own? {
          r := LoadZipped(o, o.inode, bs, size, pos, own, content);
        } else if packed == null {
          r := None;
        } else {
          PackedContent(packed, bs, v, PackedOf(nodes, pk));
          SmallServes(packed, bs, v, PackedOf(nodes, pk), o.fragOff, size);
          r := LoadZipped(o, packed, bs, size, pos, v, content);
          SmallServes(packed, bs, v, PackedOf(nodes, pk), o.fragOff, size);
        }
    }
  }

  lemma {:induction false} DeviceIs(bs: nat, nodes: seq<Node>, pk: nat, plans: seq<Plan>, k: nat)
    requires bs > 0 && k < |nodes| && nodes[k].content.Device?
    ensures ContentOf(bs, nodes, pk, plans, k) == []
  {
  }

  lemma {:induction false} SmallIs(bs: nat, nodes: seq<Node>, pk: nat, plans: seq<Plan>, k: nat)
    requires bs > 0 && k < |nodes| && Inside(nodes, pk, k) && nodes[k].content.InPacked?
    ensures var content := nodes[k].content; content.fragOff + content.size <= |PackedOf(nodes, pk)|
    ensures var content := nodes[k].content;
      ContentOf(bs, nodes, pk, plans, k) == Slice(PackedOf(nodes, pk), content.fragOff, content.size)
      && |ContentOf(bs, nodes, pk, plans, k)| == content.size
  {
    hide PackedOf;
  }

  lemma {:induction false} PackedContent(packed: Inode, bs: nat, v: View, bytes: seq<byte>)
    requires PackedOpen(packed, bs, v, bytes)
    ensures v.m.Content() == bytes
  {
  }

  /** Opens the packed inode; null when it cannot be read. */
  method OpenPacked(bs: nat, img: Built, built: Stamp, nid: nat, ghost nodes: seq<Node>, ghost pk: nat, ghost spool: seq<byte>, ghost blocks: nat,
                    ghost total: nat, ghost b: InodeBytes, ghost e: seq<IndexEntry>)
    returns (packed: Inode?, ghost v: View)
    requires Known(bs, nodes, pk, spool, blocks, img, total, pk, b, e) && nid == Number(img.plans, pk) && nodes[pk].content.Stored?
    ensures packed != null <==> Legible(img.image, Start(bs, img, pk))
    ensures packed != null ==> fresh(packed) && PackedOpen(packed, bs, v, PackedOf(nodes, pk))
  {
    hide Known, NodeIn, OpensNode, InfoAt, Inside, CoreRead, OpensZipped, LocatedOf, Serves, Suits, Number, Flatten;
    KnownFacts(bs, nodes, pk, spool, blocks, img, total, pk, b, e);
    var f := OpenNode(bs, img.image, img.a.meta, built, nid);
    OpensIt(bs, nodes, pk, spool, blocks, img, total, pk, b, e, built, f);
    v := View(Mapping(0, [], []), false);
    if Legible(img.image, Start(bs, img, pk)) {
      v := OwnNode(bs, nodes, pk, spool, blocks, img, total, pk, b, e, built, f);
      OwnOpen(f.value.o, bs, v, ContentOf(bs, nodes, pk, img.plans, pk));
    }
    if f.None? || !f.value.Zipped? || !f.value.o.Own? { return null, v; }
    packed := f.value.o.inode;
  }

  lemma {:induction false} OwnOpen(o: Opened, bs: nat, v: View, content: seq<byte>)
    requires o.Own? && Serves(o, o.inode, bs, v, content)
    ensures PackedOpen(o.inode, bs, v, content)
  {
    hide Inode.Indexed, Inode.CacheOk, Flatten;
  }

  // ---- names -----------------------------------------------------------------------------------------

  /** A directory of sorted names, each leading to a node. */
  ghost predicate DirOk(bs: nat, nodes: seq<Node>, plans: seq<Plan>, d: nat)
    requires bs > 0
  {
    d < |nodes| && nodes[d].content.Listing?
    && var children := nodes[d].content.children;
    Dirents.Directory(bs, ListingBytes(bs, children, plans), Entries(children, plans)) && forall c <- children :: c.node < |nodes|
  }

  /** The child with this name. */
  function Named(children: seq<Child>, name: seq<byte>): (r: Option<Child>)
    decreases |children|
  {
    if children == [] then None
    else
      var last := children[|children| - 1];
      if last.name == name then Some(last) else Named(children[..|children| - 1], name)
  }

  lemma {:induction false} NamedIs(children: seq<Child>, name: seq<byte>, j: nat)
    requires j < |children| && children[j].name == name
    requires forall i :: 0 <= i < |children| && i != j ==> children[i].name != name
    ensures Named(children, name) == Some(children[j])
    decreases |children|
  {
    if j < |children| - 1 { NamedIs(children[..|children| - 1], name, j); }
  }

  lemma {:induction false} NamedNone(children: seq<Child>, name: seq<byte>)
    requires forall c <- children :: c.name != name
    ensures Named(children, name) == None
    decreases |children|
  {
    if children != [] { NamedNone(children[..|children| - 1], name); }
  }

  /** An answer from a directory is the number of the node the name leads to, and the
      file type the directory lists it with. */
  lemma {:induction false} AnswerNames(r: Result, children: seq<Child>, plans: seq<Plan>, name: seq<byte>)
    requires Sorted(Entries(children, plans)) && Answers(r, Entries(children, plans), 0, |children|, name)
    ensures r.Found? <==> Named(children, name).Some?
    ensures r.Found? ==> var c := Named(children, name).value; r.nid == Number(plans, c.node) && r.ftype == c.ftype && c in children
  {
    hide Less, Number;
    var ents := Entries(children, plans);
    assert ents[0..|ents|] == ents;
    if r.Found? {
      var j :| 0 <= j < |ents| && ents[j] == Entry(name, r.nid, r.ftype);
      forall i | 0 <= i < |children| && i != j ensures children[i].name != name {
        LessIsTotal(ents[i].name, ents[j].name);
        if i < j { assert Less(ents[i].name, ents[j].name); } else { assert Less(ents[j].name, ents[i].name); }
      }
      NamedIs(children, name, j);
      assert children[j] in children;
    } else {
      forall c <- children ensures c.name != name {
        var i :| 0 <= i < |children| && children[i] == c;
        assert ents[i].name == c.name;
      }
      NamedNone(children, name);
    }
  }

  /** The directory has no 64 KiB block. */
  predicate Searches(bs: nat, nodes: seq<Node>, plans: seq<Plan>, d: nat)
    requires bs > 0 && d < |nodes| && nodes[d].content.Listing?
  {
    Searchable(bs, ListingBytes(bs, nodes[d].content.children, plans))
  }

  /** Looks a name up in the directory with this number.  Found exactly when the directory
      has it, and then with the number of the node it leads to; unless the directory has
      64 KiB blocks, of which the last name of the first is not found. */
  method FindName(bs: nat, img: Built, built: Stamp, nid: nat, name: seq<byte>, ghost nodes: seq<Node>, ghost pk: nat, ghost spool: seq<byte>,
                  ghost blocks: nat, ghost total: nat, ghost d: nat, ghost b: InodeBytes, ghost e: seq<IndexEntry>)
    returns (r: Result)
    requires Known(bs, nodes, pk, spool, blocks, img, total, d, b, e) && nid == Number(img.plans, d) && DirOk(bs, nodes, img.plans, d)
    ensures Searches(bs, nodes, img.plans, d) ==>
      (r.Found? <==> Legible(img.image, Start(bs, img, d)) && Named(nodes[d].content.children, name).Some?)
    ensures Searches(bs, nodes, img.plans, d) && r.Found? ==>
      Named(nodes[d].content.children, name).Some? && Leads(nodes, img.plans, Named(nodes[d].content.children, name).value, r.nid, r.ftype)
    ensures LastOfFirst(bs, ListingBytes(bs, nodes[d].content.children, img.plans), Entries(nodes[d].content.children, img.plans), name) ==>
      r == Invalid
  {
    hide Known, NodeIn, OpensNode, InfoAt, Inside, CoreRead, OpensZipped, LocatedOf, Suits, Number, Dirents.Directory, Searchable, FlatAt, ListingBytes, FlatOf, Entries, Answers, Named, LastOfFirst;
    KnownFacts(bs, nodes, pk, spool, blocks, img, total, d, b, e);
    ghost var children := nodes[d].content.children;
    ghost var ents := Entries(children, img.plans);
    var f := OpenNode(bs, img.image, img.a.meta, built, nid);
    OpensIt(bs, nodes, pk, spool, blocks, img, total, d, b, e, built, f);
    if f.None? || !f.value.FlatFile? { return Invalid; }
    r := Lookup(bs, img.image, f.value.fi, name, ListingBytes(bs, children, img.plans), ents);
    DirectorySorted(bs, ListingBytes(bs, children, img.plans), ents);
    if Searches(bs, nodes, img.plans, d) { AnswerNames(r, children, img.plans, name); }
  }

  /** The number and the type are the child's. */
  predicate Leads(nodes: seq<Node>, plans: seq<Plan>, c: Child, nid: nat, ftype: byte) {
    c.node < |nodes| && nid == Number(plans, c.node) && ftype == c.ftype
  }

  lemma {:induction false} DirectorySorted(bs: nat, dir: seq<byte>, ents: seq<Entry>)
    requires Dirents.Directory(bs, dir, ents)
    ensures Sorted(ents)
  {
  }

  // ---- attributes --------------------------------------------------------------------------------------

  /** What a reader reports of a file. */
  datatype Stat = Stat(mode: nat, nlink: nat, uid: nat, gid: nat, mtime: nat, mtimeNs: nat, size: nat, rdev: nat, blocks: nat)

  /** The mode's type bits are those of a device, a fifo or a socket. */
  predicate SpecialMode(mode: nat) { mode / 4096 == 1 || mode / 4096 == 2 || mode / 4096 == 6 || mode / 4096 == 12 }

  /** Reads the attributes of the inode with this number. */
  method ReadStat(bs: nat, image: seq<byte>, metaAddr: nat, built: Stamp, nid: nat) returns (r: Option<Stat>)
    requires bs > 0
    ensures r.Some? <==> InfoAt(bs, image, metaAddr, built, nid).Some?
    ensures r.Some? ==> r.value == StatOf(InfoAt(bs, image, metaAddr, built, nid).value.0)
  {
    var info := InfoAt(bs, image, metaAddr, built, nid);
    if info.None? { return None; }
    r := Some(StatOf(info.value.0));
  }

  /** What an inode's core tells about the file. */
  function StatOf(c: Core): (s: Stat) {
    Stat(c.mode, c.nlink, c.uid, c.gid, c.mtime, c.mtimeNs, c.size, if SpecialMode(c.mode) then c.data else 0,
         if c.layout == CompressedFull || c.layout == CompressedCompact then c.data else 0)
  }

  /** Devices, fifos and sockets, and no others, have such a mode. */
  predicate ModeOk(node: Node) { SpecialMode(node.attrs.mode) <==> node.content.Device? }

  /** The reader reports the node's own attributes: of a compact inode with the image's
      time, the size of what it reads, a device's number, and a compressed file's blocks. */
  ghost predicate Tells(r: Stat, bs: nat, nodes: seq<Node>, pk: nat, plans: seq<Plan>, k: nat, built: Stamp)
    requires bs > 0 && k < |nodes|
  {
    var a, content := nodes[k].attrs, nodes[k].content;
    r.mode == a.mode && r.nlink == a.nlink && r.uid == a.uid && r.gid == a.gid
    && r.mtime == (if nodes[k].compact then built.sec else a.mtime) && r.mtimeNs == (if nodes[k].compact then built.ns else a.mtimeNs)
    && r.size == |ContentOf(bs, nodes, pk, plans, k)|
    && r.rdev == (if content.Device? then content.rdev else 0) && r.blocks == (if content.Stored? then content.blocks else 0)
  }

  /** Reads the attributes of node k of a built image. */
  method StatAt(bs: nat, img: Built, built: Stamp, nid: nat, ghost nodes: seq<Node>, ghost pk: nat, ghost spool: seq<byte>,
                ghost blocks: nat, ghost total: nat, ghost k: nat, ghost b: InodeBytes, ghost e: seq<IndexEntry>)
    returns (r: Option<Stat>)
    requires Known(bs, nodes, pk, spool, blocks, img, total, k, b, e) && nid == Number(img.plans, k) && ModeOk(nodes[k])
    ensures r.Some? <==> Legible(img.image, Start(bs, img, k))
    ensures r.Some? ==> Tells(r.value, bs, nodes, pk, img.plans, k, built)
  {
    hide Known, InfoAt, Number, ContentOf, Inside, SizeOf;
    KnownFacts(bs, nodes, pk, spool, blocks, img, total, k, b, e);
    NodeInfo(bs, nodes, pk, spool, blocks, img, total, k, b, e, built);
    SizeIs(bs, nodes, pk, img.plans, k);
    r := ReadStat(bs, img.image, img.a.meta, built, nid);
  }

  // ---- a whole image -----------------------------------------------------------------------------------

  /** A read of a node or of what a name leads to, or a question about their attributes. */
  datatype Request =
    | OfNode(node: nat, pos: nat)
    | OfName(dir: nat, name: seq<byte>, pos: nat)
    | StatNode(node: nat)
    | StatName(dir: nat, name: seq<byte>)

  /** Bytes, or the attributes of a node, or a name's file type and its node's attributes;
      none when an inode on the way cannot be read or there is nothing there. */
  datatype Answer =
    | Bytes(bytes: Option<seq<byte>>)
    | Info(stat: Option<Stat>)
    | Listed(ftype: byte, stat: Option<Stat>)
    | NotListed

  /** The request is about nodes of the image, none of them chunked, and about names of
      directories without 64 KiB blocks. */
  ghost predicate Askable(bs: nat, nodes: seq<Node>, plans: seq<Plan>, q: Request)
    requires bs > 0
  {
    match q
    case OfNode(k, _) => Opens(nodes, k)
    case OfName(d, name, _) => NameOk(bs, nodes, plans, d, name)
    case StatNode(k) => Opens(nodes, k) && ModeOk(nodes[k])
    case StatName(d, name) =>
      NameOk(bs, nodes, plans, d, name)
      && (Named(nodes[d].content.children, name).Some? ==> ModeOk(nodes[Named(nodes[d].content.children, name).value.node]))
  }

  ghost predicate NameOk(bs: nat, nodes: seq<Node>, plans: seq<Plan>, d: nat, name: seq<byte>)
    requires bs > 0
  {
    DirOk(bs, nodes, plans, d) && Searches(bs, nodes, plans, d)
    && (Named(nodes[d].content.children, name).Some? ==> Opens(nodes, Named(nodes[d].content.children, name).value.node))
  }

  predicate Opens(nodes: seq<Node>, k: nat) { k < |nodes| && !nodes[k].content.Chunked? }

  /** 64 bytes of the image follow the start of inode k. */
  predicate Reaches(bs: nat, x: Counts, metaFirst: bool, plans: seq<Plan>, k: nat) {
    k < |plans| && bs * (if metaFirst then x.sb else x.sb + x.flat + x.comp) + plans[k].off + INODE_EXTENDED <= bs * x.Total()
  }

  /** The answer is right: the node's bytes from the position to the end of the block, its
      own attributes, or what its directory lists, unless an inode on the way cannot be
      read, there is no such name, or the position is behind the end. */
  ghost predicate Right(r: Answer, bs: nat, nodes: seq<Node>, pk: nat, x: Counts, metaFirst: bool, built: Stamp, q: Request)
    requires bs > 0
  {
    match q
    case OfNode(k, pos) => k < |nodes| && r == Bytes(Load(bs, nodes, pk, x, metaFirst, k, pos))
    case OfName(d, name, pos) =>
      var c := Reached(bs, nodes, x, metaFirst, d, name);
      if c.None? then r == Bytes(None) else c.value.node < |nodes| && r == Bytes(Load(bs, nodes, pk, x, metaFirst, c.value.node, pos))
    case StatNode(k) => r.Info? && RightStat(r.stat, bs, nodes, pk, x, metaFirst, built, k)
    case StatName(d, name) =>
      var c := Reached(bs, nodes, x, metaFirst, d, name);
      if c.None? then r == NotListed
      else r.Listed? && r.ftype == c.value.ftype && RightStat(r.stat, bs, nodes, pk, x, metaFirst, built, c.value.node)
  }

  function Load(bs: nat, nodes: seq<Node>, pk: nat, x: Counts, metaFirst: bool, k: nat, pos: nat): (r: Option<seq<byte>>)
    requires bs > 0 && k < |nodes|
  {
    var plans := PlansOf(bs, nodes);
    Loads(bs, nodes, pk, plans, k, pos, Reaches(bs, x, metaFirst, plans, k), HasPacked(nodes, pk) && Reaches(bs, x, metaFirst, plans, pk))
  }

  /** The child a reader finds under a name, when it can read the directory. */
  function Reached(bs: nat, nodes: seq<Node>, x: Counts, metaFirst: bool, d: nat, name: seq<byte>): (c: Option<Child>)
    requires bs > 0
  {
    if d < |nodes| && nodes[d].content.Listing? && Reaches(bs, x, metaFirst, PlansOf(bs, nodes), d) then Named(nodes[d].content.children, name)
    else None
  }

  ghost predicate RightStat(r: Option<Stat>, bs: nat, nodes: seq<Node>, pk: nat, x: Counts, metaFirst: bool, built: Stamp, k: nat)
    requires bs > 0
  {
    k < |nodes| && (r.Some? <==> Reaches(bs, x, metaFirst, PlansOf(bs, nodes), k))
    && (r.Some? ==> Tells(r.value, bs, nodes, pk, PlansOf(bs, nodes), k, built))
  }

  predicate HasPacked(nodes: seq<Node>, pk: nat) { pk < |nodes| && nodes[pk].content.Stored? }

  /** What is fixed once an image was built. */
  ghost predicate Setting(bs: nat, sbBlocks: nat, superblock: Superblock, nodes: seq<Node>, pk: nat, spool: seq<byte>, compBlocks: nat,
                          metaFirst: bool, img: Built, inodes: seq<InodeBytes>, entries: seq<seq<IndexEntry>>)
  {
    Supported(bs) && bs % SLOT == 0 && |spool| == bs * compBlocks && (forall k: nat :: k < |nodes| ==> Ready(bs, spool, nodes[k]) && Inside(nodes, pk, k))
    && Room(bs, sbBlocks, nodes, compBlocks, metaFirst)
    && Complete(bs, sbBlocks, superblock, nodes, spool, compBlocks, metaFirst, img, inodes, entries)
  }

  lemma {:induction false} KnownIn(bs: nat, sbBlocks: nat, superblock: Superblock, nodes: seq<Node>, pk: nat, spool: seq<byte>, compBlocks: nat,
                                   metaFirst: bool, img: Built, inodes: seq<InodeBytes>, entries: seq<seq<IndexEntry>>, k: nat)
    requires Setting(bs, sbBlocks, superblock, nodes, pk, spool, compBlocks, metaFirst, img, inodes, entries) && Opens(nodes, k)
    ensures |nodes| == |inodes| == |entries| == |img.plans| && img.plans == PlansOf(bs, nodes)
    ensures Known(bs, nodes, pk, spool, compBlocks, img, CountsOf(bs, sbBlocks, nodes, compBlocks).Total(), k, inodes[k], entries[k])
    ensures Legible(img.image, Start(bs, img, k)) <==> Reaches(bs, CountsOf(bs, sbBlocks, nodes, compBlocks), metaFirst, img.plans, k)
  {
    hide NodeIn, Ready, Inside, Written, CountsOf, PlansOf, DatasOf, SumBlocks, AddressOk, Disjoint, Planned, Room;
    RoomIs(bs, sbBlocks, nodes, compBlocks, metaFirst, img.a, DatasOf(bs, nodes, img.plans));
    CountsKept(bs, sbBlocks, nodes, compBlocks);
  }

  lemma {:induction false} CountsKept(bs: nat, sbBlocks: nat, nodes: seq<Node>, compBlocks: nat)
    requires bs > 0
    ensures var x := CountsOf(bs, sbBlocks, nodes, compBlocks); x.sb == sbBlocks && x.comp == compBlocks
  {
  }

  /** Only the first inode has number 0, which means that there is no packed inode. */
  lemma {:induction false} NumberPositive(bs: nat, nodes: seq<Node>, plans: seq<Plan>, k: nat)
    requires bs > 0 && |plans| == |nodes| && Planned(bs, ShapesOf(bs, nodes), plans) && 0 < k < |nodes|
    ensures Number(plans, k) > 0
  {
    hide Placed, AlignUp, KindOf;
    RegionsOrdered(bs, ShapesOf(bs, nodes), plans, 0, k);
  }

  /** Answers one request. */
  method Ask(bs: nat, img: Built, built: Stamp, packed: Inode?, q: Request, ghost sbBlocks: nat, ghost superblock: Superblock, ghost nodes: seq<Node>,
             ghost pk: nat, ghost spool: seq<byte>, ghost compBlocks: nat, ghost metaFirst: bool, ghost inodes: seq<InodeBytes>,
             ghost entries: seq<seq<IndexEntry>>, ghost v: View)
    returns (r: Answer)
    requires Setting(bs, sbBlocks, superblock, nodes, pk, spool, compBlocks, metaFirst, img, inodes, entries) && bs > 0
    requires Askable(bs, nodes, PlansOf(bs, nodes), q)
    requires packed != null ==> PackedOpen(packed, bs, v, PackedOf(nodes, pk))
    requires packed != null <==> HasPacked(nodes, pk) && Reaches(bs, CountsOf(bs, sbBlocks, nodes, compBlocks), metaFirst, PlansOf(bs, nodes), pk)
    modifies packed
    ensures packed != null ==> PackedOpen(packed, bs, v, PackedOf(nodes, pk))
    ensures Right(r, bs, nodes, pk, CountsOf(bs, sbBlocks, nodes, compBlocks), metaFirst, built, q)
  {
    hide Setting, Known, PackedOpen, PackedOf, CountsOf, PlansOf, Loads, Reaches, Legible, Number, Named, HasPacked, DirOk, Searches, LastOfFirst, Tells, ModeOk;
    ghost var total := CountsOf(bs, sbBlocks, nodes, compBlocks).Total();
    match q {
      case OfNode(k, pos) =>
        KnownIn(bs, sbBlocks, superblock, nodes, pk, spool, compBlocks, metaFirst, img, inodes, entries, k);
        var bytes := LoadAt(bs, img, built, packed, Number(img.plans, k), pos, nodes, pk, spool, compBlocks, total, k, inodes[k], entries[k], v);
        r := Bytes(bytes);
      case StatNode(k) =>
        KnownIn(bs, sbBlocks, superblock, nodes, pk, spool, compBlocks, metaFirst, img, inodes, entries, k);
        var stat := StatAt(bs, img, built, Number(img.plans, k), nodes, pk, spool, compBlocks, total, k, inodes[k], entries[k]);
        r := Info(stat);
      case OfName(d, name, pos) =>
        var found, k := FindIn(bs, img, built, d, name, sbBlocks, superblock, nodes, pk, spool, compBlocks, metaFirst, inodes, entries);
        if !found.Found? { return Bytes(None); }
        var bytes := LoadAt(bs, img, built, packed, found.nid, pos, nodes, pk, spool, compBlocks, total, k, inodes[k], entries[k], v);
        r := Bytes(bytes);
      case StatName(d, name) =>
        var found, k := FindIn(bs, img, built, d, name, sbBlocks, superblock, nodes, pk, spool, compBlocks, metaFirst, inodes, entries);
        if !found.Found? { return NotListed; }
        var stat := StatAt(bs, img, built, found.nid, nodes, pk, spool, compBlocks, total, k, inodes[k], entries[k]);
        r := Listed(found.ftype, stat);
    }
  }

  /** Looks a name up in directory d of a built image. */
  method FindIn(bs: nat, img: Built, built: Stamp, d: nat, name: seq<byte>, ghost sbBlocks: nat, ghost superblock: Superblock, ghost nodes: seq<Node>,
                ghost pk: nat, ghost spool: seq<byte>, ghost compBlocks: nat, ghost metaFirst: bool, ghost inodes: seq<InodeBytes>,
                ghost entries: seq<seq<IndexEntry>>)
    returns (r: Result, ghost k: nat)
    requires Setting(bs, sbBlocks, superblock, nodes, pk, spool, compBlocks, metaFirst, img, inodes, entries) && bs > 0
    requires NameOk(bs, nodes, PlansOf(bs, nodes), d, name)
    ensures var c := Reached(bs, nodes, CountsOf(bs, sbBlocks, nodes, compBlocks), metaFirst, d, name);
      (r.Found? <==> c.Some?) && (r.Found? ==> k == c.value.node && Leads(nodes, img.plans, c.value, r.nid, r.ftype))
    ensures |nodes| == |inodes| == |entries| && img.plans == PlansOf(bs, nodes)
    ensures r.Found? ==> k < |nodes| && Known(bs, nodes, pk, spool, compBlocks, img, CountsOf(bs, sbBlocks, nodes, compBlocks).Total(), k, inodes[k], entries[k])
    ensures r.Found? ==> k < |img.plans|
    ensures r.Found? && k < |img.plans| ==> (Legible(img.image, Start(bs, img, k)) <==> Reaches(bs, CountsOf(bs, sbBlocks, nodes, compBlocks), metaFirst, img.plans, k))
  {
    hide Setting, Known, CountsOf, PlansOf, Reaches, Legible, Number, Named, DirOk, Searches, LastOfFirst;
    ghost var total := CountsOf(bs, sbBlocks, nodes, compBlocks).Total();
    k := 0;
    DirOpens(bs, nodes, PlansOf(bs, nodes), d);
    KnownIn(bs, sbBlocks, superblock, nodes, pk, spool, compBlocks, metaFirst, img, inodes, entries, d);
    r := FindName(bs, img, built, Number(img.plans, d), name, nodes, pk, spool, compBlocks, total, d, inodes[d], entries[d]);
    if r.Found? {
      k := Named(nodes[d].content.children, name).value.node;
      KnownIn(bs, sbBlocks, superblock, nodes, pk, spool, compBlocks, metaFirst, img, inodes, entries, k);
    }
  }

  lemma {:induction false} DirOpens(bs: nat, nodes: seq<Node>, plans: seq<Plan>, d: nat)
    requires bs > 0 && DirOk(bs, nodes, plans, d)
    ensures Opens(nodes, d) && nodes[d].content.Listing?
  {
  }

  /** Opens the packed inode of a built image, if it has one that can be read. */
  method PackedIn(bs: nat, img: Built, built: Stamp, packedNid: nat, ghost sbBlocks: nat, ghost superblock: Superblock, ghost nodes: seq<Node>,
                  ghost pk: nat, ghost spool: seq<byte>, ghost compBlocks: nat, ghost metaFirst: bool, ghost inodes: seq<InodeBytes>,
                  ghost entries: seq<seq<IndexEntry>>)
    returns (packed: Inode?, ghost v: View)
    requires Setting(bs, sbBlocks, superblock, nodes, pk, spool, compBlocks, metaFirst, img, inodes, entries) && bs > 0
    requires HasPacked(nodes, pk) ==> 0 < packedNid == Number(img.plans, pk)
    requires !HasPacked(nodes, pk) ==> packedNid == 0
    ensures packed != null ==> fresh(packed) && PackedOpen(packed, bs, v, PackedOf(nodes, pk))
    ensures packed != null <==> HasPacked(nodes, pk) && Reaches(bs, CountsOf(bs, sbBlocks, nodes, compBlocks), metaFirst, PlansOf(bs, nodes), pk)
  {
    hide Setting, Known, PackedOpen, PackedOf, CountsOf, PlansOf, Reaches, Legible, Number;
    packed, v := null, View(Mapping(0, [], []), false);
    if packedNid == 0 { return; }
    ghost var total := CountsOf(bs, sbBlocks, nodes, compBlocks).Total();
    KnownIn(bs, sbBlocks, superblock, nodes, pk, spool, compBlocks, metaFirst, img, inodes, entries, pk);
    packed, v := OpenPacked(bs, img, built, packedNid, nodes, pk, spool, compBlocks, total, inodes[pk], entries[pk]);
  }

  /** Builds an image and asks it, by inode and by name, in any order.  Every answer is
      right; nothing is built exactly when there are more blocks than addresses. */
  method BuildThenRead(bs: nat, sbBlocks: nat, superblock: Superblock, built: Stamp, nodes: seq<Node>, pk: nat, spool: seq<byte>, compBlocks: nat,
                       metaFirst: bool, at: seq<Request>)
    returns (r: Option<seq<Answer>>)
    requires Supported(bs) && bs % SLOT == 0 && |spool| == bs * compBlocks && 0 < pk
    requires forall addr: nat, total: nat :: |superblock(addr, total)| == bs * sbBlocks
    requires forall k: nat :: k < |nodes| ==> Ready(bs, spool, nodes[k]) && Inside(nodes, pk, k)
    requires forall j :: 0 <= j < |at| ==> Askable(bs, nodes, PlansOf(bs, nodes), at[j])
    ensures r.Some? <==> Room(bs, sbBlocks, nodes, compBlocks, metaFirst)
    ensures r.Some? ==> |r.value| == |at| && forall j :: 0 <= j < |at| ==>
      Right(r.value[j], bs, nodes, pk, CountsOf(bs, sbBlocks, nodes, compBlocks), metaFirst, built, at[j])
  {
    hide Ready, Inside, Askable, Room, Complete, Right, CountsOf, PlansOf, PackedOpen, PackedOf, Reaches, Number;
    var image, inodes, entries := BuildImage(bs, sbBlocks, superblock, nodes, spool, compBlocks, metaFirst);
    if image.None? { return None; }
    var img := image.value;
    assert Setting(bs, sbBlocks, superblock, nodes, pk, spool, compBlocks, metaFirst, img, inodes, entries);
    PackedNumber(bs, sbBlocks, superblock, nodes, pk, spool, compBlocks, metaFirst, img, inodes, entries);
    hide Setting;
    var packedNid := if HasPacked(nodes, pk) then Number(img.plans, pk) else 0;
    var packed, v := PackedIn(bs, img, built, packedNid, sbBlocks, superblock, nodes, pk, spool, compBlocks, metaFirst, inodes, entries);
    var got: seq<Answer> := [];
    while |got| < |at|
      invariant |got| <= |at| && (packed != null ==> fresh(packed) && PackedOpen(packed, bs, v, PackedOf(nodes, pk)))
      invariant forall j :: 0 <= j < |got| ==> Right(got[j], bs, nodes, pk, CountsOf(bs, sbBlocks, nodes, compBlocks), metaFirst, built, at[j])
    {
      var b := Ask(bs, img, built, packed, at[|got|], sbBlocks, superblock, nodes, pk, spool, compBlocks, metaFirst, inodes, entries, v);
      got := got + [b];
    }
    r := Some(got);
  }

  lemma {:induction false} PackedNumber(bs: nat, sbBlocks: nat, superblock: Superblock, nodes: seq<Node>, pk: nat, spool: seq<byte>, compBlocks: nat,
                                        metaFirst: bool, img: Built, inodes: seq<InodeBytes>, entries: seq<seq<IndexEntry>>)
    requires Setting(bs, sbBlocks, superblock, nodes, pk, spool, compBlocks, metaFirst, img, inodes, entries) && 0 < pk
    ensures HasPacked(nodes, pk) ==> Number(img.plans, pk) > 0
  {
    hide NodeIn, Ready, Inside, Written, CountsOf, PlansOf, DatasOf, Assigned, Disjoint, Planned, Room, Number;
    if HasPacked(nodes, pk) { NumberPositive(bs, nodes, img.plans, pk); }
  }
}
