/**
 Writing the image: superblock area, metadata, flat data and compressed data, in
 metadata-first or data-first order.  Every address that was assigned beforehand is
 where the region is then written.
 */
module ImageWriter {
  import opened Bytes
  import opened Arith
  import opened Spool
  import opened FileMap
  import opened ZIndex
  import opened Dirents
  import opened ZTrailing
  import opened Layout
  import opened InodeCore

  // ---- nodes --------------------------------------------------------------------------------

  datatype Attrs = Attrs(mode: nat, nlink: nat, uid: nat, gid: nat, mtime: nat, mtimeNs: nat)

  /** A name in a directory, and the node it leads to. */
  datatype Child = Child(name: seq<byte>, node: nat, ftype: byte)

  datatype Content =
    | Stored(extents: seq<Extent>, raws: seq<seq<byte>>, blocks: nat)   // compressed, in extents of its own
    | InPacked(fragOff: nat, size: nat)                                 // inside the packed inode
    | Chunked(indexes: seq<byte>, size: nat, format: nat)               // eight bytes a chunk
    | Flat(bytes: seq<byte>)
    | Nothing
    | Device(rdev: nat)
    | Listing(children: seq<Child>)
    | Target(bytes: seq<byte>)

  datatype Node = Node(compact: bool, attrs: Attrs, xattrs: seq<byte>, content: Content)

  /** The number a planned inode is found by. */
  function Number(plans: seq<Plan>, k: nat): (nid: nat) { if k < |plans| then plans[k].off / SLOT else 0 }

  /** A directory's entries, once the inodes have their numbers. */
  function Entries(children: seq<Child>, plans: seq<Plan>): (ents: seq<Entry>)
    ensures |ents| == |children|
  {
    seq(|children|, i requires 0 <= i < |children| => Entry(children[i].name, Number(plans, children[i].node), children[i].ftype))
  }

  function ListingBytes(bs: nat, children: seq<Child>, plans: seq<Plan>): (r: seq<byte>)
    requires bs > 0
    ensures |r| == |DirBytes(bs, Entries(children, []), 0)|
  {
    SameSize(bs, Entries(children, plans), Entries(children, []), 0);
    DirBytes(bs, Entries(children, plans), 0)
  }

  function SizeOf(bs: nat, content: Content): (n: nat)
    requires bs > 0
  {
    match content
    case Stored(_, raws, _) => |Flatten(raws)|
    case InPacked(_, size) => size
    case Chunked(_, size, _) => size
    case Flat(bytes) => |bytes|
    case Listing(children) => |ListingBytes(bs, children, [])|
    case Target(bytes) => |bytes|
    case _ => 0
  }

  function KindOf(bs: nat, content: Content): (k: Kind)
    requires bs > 0
  {
    match content
    case Stored(extents, raws, _) => ZFile(false, CanCompact(Extents(FileMapping(bs, 0, extents, raws))), SizeOf(bs, content))
    case InPacked(off, size) => ZFile(true, CanCompact(Fragment(off)), size)
    case Chunked(indexes, _, _) => Chunks(|indexes| / 8)
    case Flat(bytes) => Data(|bytes|)
    case Nothing => Empty
    case Device(_) => Special
    case Listing(children) => Directory(SizeOf(bs, content))
    case Target(bytes) => Link(|bytes|)
  }

  function ShapeOf(bs: nat, node: Node): (s: Shape)
    requires bs > 0
  {
    Shape(if node.compact then INODE_COMPACT else INODE_EXTENDED, |node.xattrs|, KindOf(bs, node.content))
  }

  /** What a core says about where the data is: an address, a block count, a format or a
      device. */
  function DataField(content: Content, layout: InodeLayout, addr: nat): (r: nat) {
    match content
    case Stored(_, _, blocks) => blocks
    case Chunked(_, _, format) => format
    case Device(rdev) => rdev
    case Flat(bytes) => if layout == FlatPlain && bytes != [] then addr else 0
    case Listing(_) => if layout == FlatPlain then addr else 0
    case Target(_) => if layout == FlatPlain then addr else 0
    case _ => 0
  }

  function CoreOf(bs: nat, node: Node, layout: InodeLayout, addr: nat): (c: Core)
    requires bs > 0
  {
    Core(layout, |node.xattrs|, node.attrs.mode, node.attrs.nlink, SizeOf(bs, node.content), DataField(node.content, layout, addr),
         node.attrs.uid, node.attrs.gid, node.attrs.mtime, node.attrs.mtimeNs)
  }

  /** Every field of the node's core fits the form it is written in. */
  predicate CoreFits(bs: nat, node: Node)
    requires bs > 0
  {
    var c := CoreOf(bs, node, FlatPlain, 0);
    Recordable(c) && (node.compact ==> Small(c))
  }

  lemma {:induction false} CoreFitsAnywhere(bs: nat, node: Node, layout: InodeLayout, addr: nat)
    requires bs > 0 && CoreFits(bs, node) && addr < 0x1_0000_0000
    ensures Recordable(CoreOf(bs, node, layout, addr)) && (node.compact ==> Small(CoreOf(bs, node, layout, addr)))
  {
    hide SizeOf;
  }

  /** The compressed form of a node, with the compressed region at block base. */
  function ZOf(bs: nat, content: Content, base: nat): (z: ZInfo)
    requires content.Stored? || content.InPacked?
  {
    if content.Stored? then Extents(FileMapping(bs, base, content.extents, content.raws)) else Fragment(content.fragOff)
  }

  // ---- what follows an inode -----------------------------------------------------------

  /** What the sources of a node's content guarantee. */
  ghost predicate Sound(bs: nat, content: Content, base: nat) {
    match content
    case Stored(extents, raws, _) => Indexable(FileMapping(bs, base, extents, raws))
    case InPacked(off, _) => off < FRAGMENT_FLAG
    case Chunked(indexes, _, _) => |indexes| % 8 == 0
    case _ => true
  }

  /** What stands behind a written inode is its node's content. */
  ghost predicate Behind(bs: nat, node: Node, p: Plan, base: nat, plans: seq<Plan>, trailing: seq<byte>, entries: seq<IndexEntry>)
    requires bs > 0
  {
    match node.content
    case Chunked(indexes, _, _) => trailing == indexes
    case Flat(bytes) => p.layout == FlatInline ==> trailing == bytes
    case Listing(children) => p.layout == FlatInline ==> trailing == ListingBytes(bs, children, plans)
    case Target(bytes) => p.layout == FlatInline ==> trailing == bytes
    case Nothing => trailing == []
    case Device(_) => trailing == []
    case _ =>
      var z := ZOf(bs, node.content, base);
      Writable(z, p.layout == CompressedCompact)
      && TrailingHolds(z, p.layout == CompressedCompact, p.off, ShapeOf(bs, node).HeaderSize(), trailing, entries)
  }

  /** What the planner asks about a compressed node can be answered before it has an
      address. */
  lemma {:induction false} ZOfKind(bs: nat, content: Content, base: nat)
    requires bs > 0 && (content.Stored? || content.InPacked?)
    ensures KindOf(bs, content) == ZFile(content.InPacked?, CanCompact(ZOf(bs, content, base)), SizeOf(bs, content))
  {
    if content.Stored? { PlaceKeepsCompact(bs, base, content.extents, content.raws); }
  }

  /** Writes what follows an inode's header: the node's content, in as many bytes as
      were planned. */
  method WriteTrailingOf(bs: nat, node: Node, ghost cur: nat, p: Plan, base: nat, plans: seq<Plan>)
    returns (out: seq<byte>, ghost entries: seq<IndexEntry>)
    requires bs > 0 && Sound(bs, node.content, base) && Placed(bs, ShapeOf(bs, node), cur, p)
    ensures |out| == p.trailing && Behind(bs, node, p, base, plans, out, entries)
  {
    hide TrailingHolds, TrailingSize, DirBytes, CanCompact, Indexable, Flatten, FileMapping, ListingBytes;
    out, entries := [], [];
    match node.content {
      case Chunked(indexes, _, _) => out := indexes;
      case Listing(children) => if p.layout == FlatInline { out := WriteListing(bs, children, plans); }
      case Flat(bytes) => if p.layout == FlatInline { out := bytes; }
      case Target(bytes) => if p.layout == FlatInline { out := bytes; }
      case Nothing =>
      case Device(_) =>
      case _ => out, entries := WriteCompressed(bs, node, cur, p, base);
    }
  }

  method WriteListing(bs: nat, children: seq<Child>, plans: seq<Plan>) returns (out: seq<byte>)
    requires bs > 0
    ensures out == ListingBytes(bs, children, plans)
  {
    out := WriteDirents(bs, Entries(children, plans));
  }

  method WriteCompressed(bs: nat, node: Node, ghost cur: nat, p: Plan, base: nat) returns (out: seq<byte>, ghost entries: seq<IndexEntry>)
    requires bs > 0 && Sound(bs, node.content, base) && Placed(bs, ShapeOf(bs, node), cur, p)
    requires node.content.Stored? || node.content.InPacked?
    ensures |out| == p.trailing
    ensures var z := ZOf(bs, node.content, base);
      Writable(z, p.layout == CompressedCompact)
      && TrailingHolds(z, p.layout == CompressedCompact, p.off, ShapeOf(bs, node).HeaderSize(), out, entries)
  {
    hide TrailingHolds, TrailingSize, CanCompact, Indexable, Flatten, FileMapping;
    ZOfKind(bs, node.content, base);
    if node.content.Stored? { FileMappingIs(bs, base, node.content.extents, node.content.raws); }
    out, entries := WriteTrailing(ZOf(bs, node.content, base), p.layout == CompressedCompact, p.off, ShapeOf(bs, node).HeaderSize(),
                                  SizeOf(bs, node.content), bs);
  }

  /** The data an inode keeps in blocks of its own. */
  function External(bs: nat, content: Content, layout: InodeLayout, plans: seq<Plan>): (r: seq<byte>)
    requires bs > 0
  {
    if layout != FlatPlain then []
    else match content
      case Flat(bytes) => bytes
      case Listing(children) => ListingBytes(bs, children, plans)
      case Target(bytes) => bytes
      case _ => []
  }

  // ---- addresses ---------------------------------------------------------------------------

  function BlocksFor(bs: nat, n: nat): (r: nat)
    requires bs > 0
  {
    CeilNat(n, bs);
    CeilDiv(n, bs)
  }

  /** The blocks of the first n flat regions. */
  function SumBlocks(bs: nat, datas: seq<seq<byte>>, n: nat): (r: nat)
    requires bs > 0 && n <= |datas|
  {
    if n == 0 then 0 else SumBlocks(bs, datas, n - 1) + BlocksFor(bs, |datas[n - 1]|)
  }

  lemma {:induction false} SumBlocksMonotone(bs: nat, datas: seq<seq<byte>>, m: nat, n: nat)
    requires bs > 0 && m <= n <= |datas|
    ensures SumBlocks(bs, datas, m) <= SumBlocks(bs, datas, n)
    decreases n
  {
    hide BlocksFor;
    if m < n { SumBlocksMonotone(bs, datas, m, n - 1); }
  }

  /** A region with data has the address right after the blocks of those before it. */
  ghost predicate AddressOk(bs: nat, datas: seq<seq<byte>>, base: nat, k: nat, addr: nat)
    requires bs > 0 && k < |datas|
  {
    addr == if datas[k] == [] then 0 else base + SumBlocks(bs, datas, k)
  }

  /** Where everything goes, in blocks. */
  datatype Addresses = Addresses(data: seq<nat>, compBase: nat, meta: nat)

  /** Assigns addresses: data after metadata, or metadata after data. */
  method AssignDataBlocks(bs: nat, sbBlocks: nat, metaBlocks: nat, datas: seq<seq<byte>>, compBlocks: nat, metaFirst: bool)
    returns (a: Addresses)
    requires bs > 0
    ensures |a.data| == |datas|
    ensures Assigned(bs, a, Counts(sbBlocks, metaBlocks, SumBlocks(bs, datas, |datas|), compBlocks), datas, metaFirst)
  {
    hide BlocksFor, AddressOk, SumBlocks;
    NoneBefore(bs, datas);
    var base := DataBase(sbBlocks, metaBlocks, metaFirst);
    var addr: nat := base;
    var data: seq<nat> := [];
    for k := 0 to |datas|
      invariant |data| == k && addr == base + SumBlocks(bs, datas, k)
      invariant forall j :: 0 <= j < k ==> AddressOk(bs, datas, base, j, data[j])
    {
      NextAddress(bs, datas, base, k);
      if |datas[k]| > 0 {
        data := data + [addr];
        addr := addr + BlocksFor(bs, |datas[k]|);
      } else {
        data := data + [0];
      }
    }
    a := Addresses(data, addr, if metaFirst then sbBlocks else addr + compBlocks);
  }

  lemma {:induction false} NextAddress(bs: nat, datas: seq<seq<byte>>, base: nat, k: nat)
    requires bs > 0 && k < |datas|
    ensures SumBlocks(bs, datas, k + 1) == SumBlocks(bs, datas, k) + BlocksFor(bs, |datas[k]|)
    ensures if datas[k] == [] then BlocksFor(bs, |datas[k]|) == 0 && AddressOk(bs, datas, base, k, 0)
            else AddressOk(bs, datas, base, k, base + SumBlocks(bs, datas, k))
  {
    CeilUnique(0, bs, 0);
  }

  lemma {:induction false} NoneBefore(bs: nat, datas: seq<seq<byte>>)
    requires bs > 0
    ensures SumBlocks(bs, datas, 0) == 0
  {
  }

  function DataBase(sbBlocks: nat, metaBlocks: nat, metaFirst: bool): (r: nat) {
    if metaFirst then sbBlocks + metaBlocks else sbBlocks
  }

  // ---- the regions ---------------------------------------------------------------------------

  /** The flat regions, each padded to whole blocks. */
  function DataRegion(bs: nat, datas: seq<seq<byte>>, n: nat): (r: seq<byte>)
    requires bs > 0 && n <= |datas|
  {
    if n == 0 then [] else DataRegion(bs, datas, n - 1) + datas[n - 1] + Zeros(PadTo(bs, |datas[n - 1]|))
  }

  lemma {:induction false} PaddedSize(bs: nat, n: nat)
    requires bs > 0
    ensures n + PadTo(bs, n) == bs * BlocksFor(bs, n)
  {
    BlockPad(bs, n);
  }

  lemma {:induction false} DataRegionSize(bs: nat, datas: seq<seq<byte>>, n: nat)
    requires bs > 0 && n <= |datas|
    ensures |DataRegion(bs, datas, n)| == bs * SumBlocks(bs, datas, n)
    decreases n
  {
    hide PadTo, BlocksFor;
    if n > 0 {
      DataRegionSize(bs, datas, n - 1);
      PaddedSize(bs, |datas[n - 1]|);
      MulSplit(bs, SumBlocks(bs, datas, n - 1), BlocksFor(bs, |datas[n - 1]|));
    }
  }

  /** Region k starts right after the blocks of those before it. */
  lemma {:induction false} DataRegionAt(bs: nat, datas: seq<seq<byte>>, n: nat, k: nat)
    requires bs > 0 && k < n <= |datas|
    ensures Slice(DataRegion(bs, datas, n), bs * SumBlocks(bs, datas, k), |datas[k]|) == datas[k]
    ensures bs * SumBlocks(bs, datas, k) + |datas[k]| <= |DataRegion(bs, datas, n)|
    decreases n
  {
    hide PadTo, BlocksFor, SumBlocks;
    var front, last := DataRegion(bs, datas, n - 1), datas[n - 1] + Zeros(PadTo(bs, |datas[n - 1]|));
    assert DataRegion(bs, datas, n) == front + last;
    if k < n - 1 {
      DataRegionAt(bs, datas, n - 1, k);
      SlicePrefix(front, last, bs * SumBlocks(bs, datas, k), |datas[k]|);
    } else {
      DataRegionSize(bs, datas, k);
      assert Slice(front + last, |front|, |datas[k]|) == datas[k];
    }
  }

  /** Writes the flat regions. */
  method WriteDataBlocks(bs: nat, datas: seq<seq<byte>>, zeroBuf: seq<byte>) returns (out: seq<byte>)
    requires bs > 0 && zeroBuf == Zeros(bs)
    ensures out == DataRegion(bs, datas, |datas|)
  {
    out := [];
    for k := 0 to |datas|
      invariant out == DataRegion(bs, datas, k)
    {
      PadIs(bs, |datas[k]|);
      NothingToPad(bs);
      if datas[k] == [] {
        assert out + datas[k] + Zeros(0) == out;
        continue;
      }
      out := out + datas[k];
      if |datas[k]| % bs != 0 {
        out := out + zeroBuf[..bs - |datas[k]| % bs];
        assert zeroBuf[..bs - |datas[k]| % bs] == Zeros(PadTo(bs, |datas[k]|));
      } else {
        assert out + Zeros(0) == out;
      }
    }
  }

  lemma {:induction false} NothingToPad(bs: nat)
    requires bs > 0
    ensures PadTo(bs, 0) == 0
  {
    DivUnique(0, bs, 0, 0);
  }

  // ---- the image ---------------------------------------------------------------------------

  /** What the superblock says: where the metadata is and how many blocks there are. */
  type Superblock = (nat, nat) -> seq<byte>

  /** The sizes of everything in the image, in blocks. */
  datatype Counts = Counts(sb: nat, meta: nat, flat: nat, comp: nat) {
    function Total(): (n: nat) { sb + meta + flat + comp }
  }

  /** part stands at block addr. */
  ghost predicate Written(bs: nat, image: seq<byte>, addr: nat, part: seq<byte>) {
    bs * addr + |part| <= |image| && Slice(image, bs * addr, |part|) == part
  }

  lemma {:induction false} WrittenAfter(bs: nat, before: seq<byte>, addr: nat, part: seq<byte>, after: seq<byte>)
    requires |before| == bs * addr
    ensures Written(bs, before + part + after, addr, part)
  {
  }

  /** Part of a region that stands in the image stands there too. */
  lemma {:induction false} WrittenInside(bs: nat, image: seq<byte>, addr: nat, region: seq<byte>, k: nat, part: seq<byte>)
    requires Written(bs, image, addr, region) && Slice(region, bs * k, |part|) == part && bs * k + |part| <= |region|
    ensures Written(bs, image, addr + k, part)
  {
    MulSplit(bs, addr, k);
    SliceOfSlice(image, bs * addr, region, bs * k, |part|);
  }

  /** Every address is honest: each region stands where its address says, regions do
      not overlap, and together they are the blocks the superblock counts. */
  ghost predicate Honest(bs: nat, image: seq<byte>, a: Addresses, x: Counts, sb: seq<byte>, meta: seq<byte>,
                         datas: seq<seq<byte>>, spool: seq<byte>)
    requires bs > 0 && |a.data| == |datas|
  {
    |image| == bs * x.Total() && Written(bs, image, 0, sb) && Written(bs, image, a.meta, meta)
    && Written(bs, image, a.compBase, spool)
    && (forall k :: 0 <= k < |datas| && datas[k] != [] ==> Written(bs, image, a.data[k], datas[k]))
  }

  /** The regions of an image in block ranges, in order of address. */
  ghost predicate Disjoint(bs: nat, a: Addresses, x: Counts, datas: seq<seq<byte>>)
    requires bs > 0 && |a.data| == |datas|
  {
    x.sb <= a.meta && x.sb <= a.compBase && a.compBase + x.comp <= x.Total() && a.meta + x.meta <= x.Total()
    && (a.meta + x.meta <= a.compBase || a.compBase + x.comp <= a.meta)
    && (forall k :: 0 <= k < |datas| && datas[k] != [] ==>
          x.sb <= a.data[k] && a.data[k] + BlocksFor(bs, |datas[k]|) <= a.compBase
          && (a.meta + x.meta <= a.data[k] || a.data[k] + BlocksFor(bs, |datas[k]|) <= a.meta))
    && (forall j, k :: 0 <= j < k < |datas| && datas[j] != [] && datas[k] != [] ==>
          a.data[j] + BlocksFor(bs, |datas[j]|) <= a.data[k])
  }

  /** The addresses AssignDataBlocks gives. */
  ghost predicate Assigned(bs: nat, a: Addresses, x: Counts, datas: seq<seq<byte>>, metaFirst: bool)
    requires bs > 0 && |a.data| == |datas|
  {
    var base := DataBase(x.sb, x.meta, metaFirst);
    x.flat == SumBlocks(bs, datas, |datas|)
    && (forall k :: 0 <= k < |datas| ==> AddressOk(bs, datas, base, k, a.data[k]))
    && a.compBase == base + x.flat && a.meta == if metaFirst then x.sb else a.compBase + x.comp
  }

  lemma {:induction false} AssignedDisjoint(bs: nat, a: Addresses, x: Counts, datas: seq<seq<byte>>, metaFirst: bool)
    requires bs > 0 && |a.data| == |datas| && Assigned(bs, a, x, datas, metaFirst)
    ensures Disjoint(bs, a, x, datas)
  {
    hide SumBlocks, BlocksFor, AddressOk;
    forall k | 0 <= k < |datas| && datas[k] != []
      ensures a.data[k] == DataBase(x.sb, x.meta, metaFirst) + SumBlocks(bs, datas, k)
      ensures a.data[k] + BlocksFor(bs, |datas[k]|) <= a.compBase
    {
      DataInside(bs, datas, DataBase(x.sb, x.meta, metaFirst), k, a.data[k]);
    }
    forall j, k | 0 <= j < k < |datas| && datas[j] != [] && datas[k] != []
      ensures a.data[j] + BlocksFor(bs, |datas[j]|) <= a.data[k]
    {
      DataInside(bs, datas, DataBase(x.sb, x.meta, metaFirst), j, a.data[j]);
      SumBlocksMonotone(bs, datas, j + 1, k);
    }
  }

  lemma {:induction false} DataInside(bs: nat, datas: seq<seq<byte>>, base: nat, k: nat, addr: nat)
    requires bs > 0 && k < |datas| && datas[k] != [] && AddressOk(bs, datas, base, k, addr)
    ensures addr == base + SumBlocks(bs, datas, k) && addr + BlocksFor(bs, |datas[k]|) == base + SumBlocks(bs, datas, k + 1)
    ensures addr + BlocksFor(bs, |datas[k]|) <= base + SumBlocks(bs, datas, |datas|)
  {
    hide BlocksFor;
    SumBlocksMonotone(bs, datas, k + 1, |datas|);
  }

  /** The block count of the superblock. */
  method CountBlocks(bs: nat, sbBlocks: nat, metaBlocks: nat, datas: seq<seq<byte>>, compBlocks: nat) returns (total: nat)
    requires bs > 0
    ensures total == sbBlocks + metaBlocks + SumBlocks(bs, datas, |datas|) + compBlocks
  {
    hide BlocksFor;
    var dataBlocks := 0;
    for k := 0 to |datas|
      invariant dataBlocks == SumBlocks(bs, datas, k)
    {
      NextAddress(bs, datas, 0, k);
      if |datas[k]| > 0 { dataBlocks := dataBlocks + BlocksFor(bs, |datas[k]|); }
    }
    total := sbBlocks + metaBlocks + (dataBlocks + compBlocks);
  }

  /** Superblock, metadata, flat data, compressed data. */
  lemma {:induction false} MetadataFirst(bs: nat, a: Addresses, x: Counts, sb: seq<byte>, meta: seq<byte>, datas: seq<seq<byte>>, spool: seq<byte>)
    requires bs > 0 && |a.data| == |datas| && Assigned(bs, a, x, datas, true)
    requires |sb| == bs * x.sb && |meta| == bs * x.meta && |spool| == bs * x.comp
    ensures Honest(bs, sb + meta + DataRegion(bs, datas, |datas|) + spool, a, x, sb, meta, datas, spool)
  {
    hide SumBlocks, DataRegion, AddressOk, Written;
    var flat := DataRegion(bs, datas, |datas|);
    var image := sb + meta + flat + spool;
    DataRegionSize(bs, datas, |datas|);
    MulSplit(bs, x.sb, x.meta);
    MulSplit(bs, x.sb + x.meta, x.flat);
    MulSplit(bs, x.sb + x.meta + x.flat, x.comp);
    assert bs * 0 == 0;
    WrittenAfter(bs, [], 0, sb, meta + flat + spool);
    assert [] + sb + (meta + flat + spool) == image;
    WrittenAfter(bs, sb, x.sb, meta, flat + spool);
    assert sb + meta + (flat + spool) == image;
    WrittenAfter(bs, sb + meta, x.sb + x.meta, flat, spool);
    WrittenAfter(bs, sb + meta + flat, x.sb + x.meta + x.flat, spool, []);
    assert image + [] == image;
    DataWritten(bs, image, a, x.sb + x.meta, datas);
  }

  /** Superblock, flat data, compressed data, metadata. */
  lemma {:induction false} DataFirst(bs: nat, a: Addresses, x: Counts, sb: seq<byte>, meta: seq<byte>, datas: seq<seq<byte>>, spool: seq<byte>)
    requires bs > 0 && |a.data| == |datas| && Assigned(bs, a, x, datas, false)
    requires |sb| == bs * x.sb && |meta| == bs * x.meta && |spool| == bs * x.comp
    ensures Honest(bs, sb + DataRegion(bs, datas, |datas|) + spool + meta, a, x, sb, meta, datas, spool)
  {
    hide SumBlocks, DataRegion, AddressOk, Written;
    var flat := DataRegion(bs, datas, |datas|);
    var image := sb + flat + spool + meta;
    DataRegionSize(bs, datas, |datas|);
    MulSplit(bs, x.sb, x.flat);
    MulSplit(bs, x.sb + x.flat, x.comp);
    MulSplit(bs, x.sb + x.flat + x.comp, x.meta);
    assert bs * 0 == 0;
    WrittenAfter(bs, [], 0, sb, flat + spool + meta);
    assert [] + sb + (flat + spool + meta) == image;
    WrittenAfter(bs, sb, x.sb, flat, spool + meta);
    assert sb + flat + (spool + meta) == image;
    WrittenAfter(bs, sb + flat, x.sb + x.flat, spool, meta);
    WrittenAfter(bs, sb + flat + spool, x.sb + x.flat + x.comp, meta, []);
    assert image + [] == image;
    DataWritten(bs, image, a, x.sb, datas);
  }

  lemma {:induction false} DataWritten(bs: nat, image: seq<byte>, a: Addresses, base: nat, datas: seq<seq<byte>>)
    requires bs > 0 && |a.data| == |datas| && Written(bs, image, base, DataRegion(bs, datas, |datas|))
    requires forall k :: 0 <= k < |datas| ==> AddressOk(bs, datas, base, k, a.data[k])
    ensures forall k :: 0 <= k < |datas| && datas[k] != [] ==> Written(bs, image, a.data[k], datas[k])
  {
    hide SumBlocks, DataRegion, Written;
    forall k | 0 <= k < |datas| && datas[k] != [] ensures Written(bs, image, a.data[k], datas[k]) {
      assert AddressOk(bs, datas, base, k, a.data[k]);
      DataRegionAt(bs, datas, |datas|, k);
      WrittenInside(bs, image, base, DataRegion(bs, datas, |datas|), SumBlocks(bs, datas, k), datas[k]);
    }
  }

  /** Writes the image in either order, with the addresses assigned before; data-first
      leaves room for the superblock and fills it last. */
  method WriteImage(bs: nat, sbBlocks: nat, superblock: Superblock, meta: seq<byte>, metaBlocks: nat, datas: seq<seq<byte>>,
                    spool: seq<byte>, compBlocks: nat, metaFirst: bool, a: Addresses)
    returns (image: seq<byte>, x: Counts)
    requires bs > 0 && |meta| == bs * metaBlocks && |spool| == bs * compBlocks && |a.data| == |datas|
    requires forall at: nat, total: nat :: |superblock(at, total)| == bs * sbBlocks
    requires Assigned(bs, a, Counts(sbBlocks, metaBlocks, SumBlocks(bs, datas, |datas|), compBlocks), datas, metaFirst)
    ensures x == Counts(sbBlocks, metaBlocks, SumBlocks(bs, datas, |datas|), compBlocks)
    ensures Honest(bs, image, a, x, superblock(a.meta, x.Total()), meta, datas, spool)
    ensures Disjoint(bs, a, x, datas)
  {
    hide SumBlocks, DataRegion, AddressOk, Written, Honest, Disjoint;
    var total := CountBlocks(bs, sbBlocks, metaBlocks, datas, compBlocks);
    x := Counts(sbBlocks, metaBlocks, total - sbBlocks - metaBlocks - compBlocks, compBlocks);
    AssignedDisjoint(bs, a, x, datas, metaFirst);
    var sb := superblock(a.meta, total);
    var flat := WriteDataBlocks(bs, datas, Zeros(bs));
    if metaFirst {
      image := sb + meta + flat + spool;
      MetadataFirst(bs, a, x, sb, meta, datas, spool);
    } else {
      var placeholder := Zeros(bs * sbBlocks);
      image := placeholder + flat + spool + meta;
      image := sb + image[|sb|..];
      assert image == sb + flat + spool + meta;
      DataFirst(bs, a, x, sb, meta, datas, spool);
    }
  }
}
