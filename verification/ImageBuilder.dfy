/**
 Building a whole image from its nodes: planning, addresses, serialised inodes, and the
 four parts written in either order.
 */
module ImageBuilder {
  import opened Bytes
  import opened Spool
  import opened FileMap
  import opened ZIndex
  import opened ZFile
  import opened ZTrailing
  import opened ReadBack
  import opened Layout
  import opened InodeCore
  import opened ImageWriter

  /** The metadata area, with its inodes, stands in the image. */
  ghost predicate MetaIn(bs: nat, image: seq<byte>, metaAddr: nat, meta: seq<byte>, shapes: seq<Shape>, plans: seq<Plan>,
                         inodes: seq<InodeBytes>) {
    0 < bs && bs % SLOT == 0 && |shapes| == |plans| == |inodes| && Written(bs, image, metaAddr, meta)
    && Planned(bs, shapes, plans) && (forall k :: 0 <= k < |plans| ==> AsPlanned(shapes[k], plans[k], inodes[k]))
    && Stands(meta, plans, inodes, |plans|) && EndOf(shapes, plans, |plans|) <= |meta|
  }

  /** One inode as it stands in the image. */
  ghost predicate InodeIn(bs: nat, image: seq<byte>, metaAddr: nat, s: Shape, p: Plan, b: InodeBytes) {
    0 < bs && bs % SLOT == 0 && p.off % SLOT == 0 && AsPlanned(s, p, b)
    && bs * metaAddr + p.off + |b.All()| <= |image| && Slice(image, bs * metaAddr + p.off, |b.All()|) == b.All()
    && (p.layout == FlatInline ==> FitsInline(bs, s, p.off, p.trailing))
  }

  /** Every inode of a written metadata area stands in the image at its number. */
  lemma {:induction false} InodeInImage(bs: nat, image: seq<byte>, metaAddr: nat, meta: seq<byte>, shapes: seq<Shape>,
                                        plans: seq<Plan>, inodes: seq<InodeBytes>, k: nat)
    requires k < |plans| == |shapes| == |inodes| && MetaIn(bs, image, metaAddr, meta, shapes, plans, inodes)
    ensures InodeIn(bs, image, metaAddr, shapes[k], plans[k], inodes[k])
  {
    hide Planned, Written, AlignUp, Slice, EndOf, FitsInline;
    InodesInside(bs, shapes, plans, inodes, |plans|);
    PlacedSlot(bs, shapes, plans, k);
    WrittenIs(bs, image, metaAddr, meta);
    SliceInside(image, bs * metaAddr, meta, plans[k].off, |inodes[k].All()|);
  }

  lemma {:induction false} WrittenIs(bs: nat, image: seq<byte>, addr: nat, part: seq<byte>)
    requires Written(bs, image, addr, part)
    ensures bs * addr + |part| <= |image| && Slice(image, bs * addr, |part|) == part
  {
  }

  lemma {:induction false} PlacedSlot(bs: nat, shapes: seq<Shape>, plans: seq<Plan>, k: nat)
    requires bs > 0 && Planned(bs, shapes, plans) && k < |plans|
    ensures plans[k].off % SLOT == 0
    ensures plans[k].layout == FlatInline ==> FitsInline(bs, shapes[k], plans[k].off, plans[k].trailing)
  {
    hide TrailingOf, Choose, EndOf;
    assert Placed(bs, shapes[k], EndOf(shapes, plans, k), plans[k]);
  }

  // ---- building ---------------------------------------------------------------------------------

  function ShapesOf(bs: nat, nodes: seq<Node>): (r: seq<Shape>)
    requires bs > 0
    ensures |r| == |nodes|
  {
    seq(|nodes|, k requires 0 <= k < |nodes| => ShapeOf(bs, nodes[k]))
  }

  function PlansOf(bs: nat, nodes: seq<Node>): (r: seq<Plan>)
    requires bs > 0
    ensures |r| == |nodes|
  {
    PlanAll(bs, ShapesOf(bs, nodes), |nodes|)
  }

  /** What the nodes keep in blocks of their own. */
  function DatasOf(bs: nat, nodes: seq<Node>, plans: seq<Plan>): (r: seq<seq<byte>>)
    requires bs > 0 && |plans| == |nodes|
    ensures |r| == |nodes|
  {
    seq(|nodes|, k requires 0 <= k < |nodes| => External(bs, nodes[k].content, plans[k].layout, plans))
  }

  /** The sizes of everything in the image. */
  function CountsOf(bs: nat, sbBlocks: nat, nodes: seq<Node>, compBlocks: nat): (x: Counts)
    requires bs > 0
  {
    var plans := PlansOf(bs, nodes);
    Counts(sbBlocks, BlocksFor(bs, EndOf(ShapesOf(bs, nodes), plans, |plans|)),
           SumBlocks(bs, DatasOf(bs, nodes, plans), |nodes|), compBlocks)
  }

  /** Every block before the metadata, or of the metadata, has a 32-bit address. */
  predicate Room(bs: nat, sbBlocks: nat, nodes: seq<Node>, compBlocks: nat, metaFirst: bool)
    requires bs > 0
  {
    var x := CountsOf(bs, sbBlocks, nodes, compBlocks);
    Addressable(DataBase(x.sb, x.meta, metaFirst) + x.flat, compBlocks)
  }

  datatype Built = Built(image: seq<byte>, a: Addresses, plans: seq<Plan>)

  /** What the sources of a node guarantee: its core fits its form, and its extents were
      stored in the spool. */
  ghost predicate Ready(bs: nat, spool: seq<byte>, node: Node)
    requires bs > 0
  {
    CoreFits(bs, node)
    && match node.content
       case Stored(extents, raws, _) => StoredAs(bs, spool, extents, raws) && Aligned(bs, raws)
       case InPacked(off, _) => off < FRAGMENT_FLAG
       case Chunked(indexes, _, _) => |indexes| % 8 == 0
       case _ => true
  }

  lemma {:induction false} ReadySound(bs: nat, spool: seq<byte>, blocks: nat, node: Node, base: nat)
    requires 512 <= bs && Ready(bs, spool, node) && |spool| == bs * blocks && Addressable(base, blocks)
    ensures Sound(bs, node.content, base)
  {
    hide StoredAs, Aligned, Indexable, CoreFits;
    if node.content.Stored? { PlacedIndexable(bs, base, spool, blocks, node.content.extents, node.content.raws); }
  }

  /** The layout is one of its content's. */
  predicate Suits(content: Content, layout: InodeLayout) {
    if content.Stored? || content.InPacked? then layout == CompressedFull || layout == CompressedCompact
    else if content.Chunked? then layout == ChunkBased
    else layout == FlatPlain || layout == FlatInline
  }

  lemma {:induction false} PlacedSuits(bs: nat, node: Node, cur: nat, p: Plan)
    requires bs > 0 && Placed(bs, ShapeOf(bs, node), cur, p)
    ensures Suits(node.content, p.layout)
  {
    hide TrailingOf, CanCompact, Flatten, SizeOf;
  }

  /** Node k stands in the image: its core says what it is, and its content is behind it
      or at the address the core gives. */
  ghost predicate NodeIn(bs: nat, nodes: seq<Node>, img: Built, k: nat, b: InodeBytes, entries: seq<IndexEntry>)
    requires bs > 0 && k < |nodes| == |img.plans| == |img.a.data|
  {
    var node, p := nodes[k], img.plans[k];
    var c := CoreOf(bs, node, p.layout, img.a.data[k]);
    InodeIn(bs, img.image, img.a.meta, ShapeOf(bs, node), p, b) && Suits(node.content, p.layout)
    && Recordable(c) && (node.compact ==> Small(c)) && b.core == PutCore(c, node.compact)
    && Behind(bs, node, p, img.a.compBase, img.plans, b.trailing, entries)
    && DataIn(bs, img, External(bs, node.content, p.layout, img.plans), img.a.data[k])
  }

  ghost predicate DataIn(bs: nat, img: Built, data: seq<byte>, addr: nat) {
    if data == [] then addr == 0 else Written(bs, img.image, addr, data)
  }

  /** Serialises one inode as planned. */
  method WriteInode(bs: nat, node: Node, ghost cur: nat, p: Plan, addr: nat, base: nat, plans: seq<Plan>)
    returns (b: InodeBytes, ghost entries: seq<IndexEntry>)
    requires bs > 0 && CoreFits(bs, node) && Sound(bs, node.content, base) && Placed(bs, ShapeOf(bs, node), cur, p) && addr < 0x1_0000_0000
    ensures AsPlanned(ShapeOf(bs, node), p, b) && Behind(bs, node, p, base, plans, b.trailing, entries) && Suits(node.content, p.layout)
    ensures var c := CoreOf(bs, node, p.layout, addr);
      Recordable(c) && (node.compact ==> Small(c)) && b.core == PutCore(c, node.compact)
  {
    hide Sound, Behind, Placed, CoreFits, CoreOf, KindOf, Recordable, Small, Suits;
    var trailing;
    trailing, entries := WriteTrailingOf(bs, node, cur, p, base, plans);
    CoreFitsAnywhere(bs, node, p.layout, addr);
    PlacedSuits(bs, node, cur, p);
    b := InodeBytes(PutCore(CoreOf(bs, node, p.layout, addr), node.compact), node.xattrs, trailing);
  }

  /** What is known of a serialised inode before it has its place. */
  ghost predicate Serialised(bs: nat, node: Node, p: Plan, addr: nat, base: nat, plans: seq<Plan>, b: InodeBytes, entries: seq<IndexEntry>)
    requires bs > 0
  {
    var c := CoreOf(bs, node, p.layout, addr);
    AsPlanned(ShapeOf(bs, node), p, b) && Behind(bs, node, p, base, plans, b.trailing, entries) && Suits(node.content, p.layout)
    && Recordable(c) && (node.compact ==> Small(c)) && b.core == PutCore(c, node.compact)
  }

  /** Serialises all inodes as planned. */
  method WriteInodes(bs: nat, nodes: seq<Node>, plans: seq<Plan>, a: Addresses)
    returns (inodes: seq<InodeBytes>, ghost entries: seq<seq<IndexEntry>>)
    requires bs > 0 && |nodes| == |plans| == |a.data| && Planned(bs, ShapesOf(bs, nodes), plans)
    requires forall k :: 0 <= k < |nodes| ==> CoreFits(bs, nodes[k]) && Sound(bs, nodes[k].content, a.compBase)
    requires forall k :: 0 <= k < |nodes| ==> a.data[k] < 0x1_0000_0000
    ensures |inodes| == |entries| == |nodes|
    ensures forall k :: 0 <= k < |nodes| ==> Serialised(bs, nodes[k], plans[k], a.data[k], a.compBase, plans, inodes[k], entries[k])
  {
    hide Sound, Behind, AsPlanned, Placed, EndOf, CoreFits, CoreOf, KindOf, Recordable, Small, Suits;
    inodes, entries := [], [];
    for k := 0 to |nodes|
      invariant |inodes| == |entries| == k
      invariant forall j :: 0 <= j < k ==> Serialised(bs, nodes[j], plans[j], a.data[j], a.compBase, plans, inodes[j], entries[j])
    {
      var b, e := WriteInode(bs, nodes[k], EndOf(ShapesOf(bs, nodes), plans, k), plans[k], a.data[k], a.compBase, plans);
      assert Serialised(bs, nodes[k], plans[k], a.data[k], a.compBase, plans, b, e);
      hide Serialised;
      inodes, entries := inodes + [b], entries + [e];
    }
  }

  /** The whole image: superblock, inodes, flat data and compressed data stand where the
      addresses say, which are those assigned to these nodes, and do not overlap. */
  ghost predicate Complete(bs: nat, sbBlocks: nat, superblock: Superblock, nodes: seq<Node>, spool: seq<byte>, compBlocks: nat, metaFirst: bool,
                        img: Built, inodes: seq<InodeBytes>, entries: seq<seq<IndexEntry>>)
    requires bs > 0
  {
    var x := CountsOf(bs, sbBlocks, nodes, compBlocks);
    img.plans == PlansOf(bs, nodes) && Planned(bs, ShapesOf(bs, nodes), img.plans) && |img.a.data| == |inodes| == |entries| == |nodes|
    && Assigned(bs, img.a, x, DatasOf(bs, nodes, img.plans), metaFirst) && Disjoint(bs, img.a, x, DatasOf(bs, nodes, img.plans))
    && |img.image| == bs * x.Total() && Written(bs, img.image, 0, superblock(img.a.meta, x.Total()))
    && Written(bs, img.image, img.a.compBase, spool)
    && forall k :: 0 <= k < |nodes| ==> NodeIn(bs, nodes, img, k, inodes[k], entries[k])
  }

  lemma {:induction false} ShapesValid(bs: nat, nodes: seq<Node>)
    requires bs > 0
    ensures forall s <- ShapesOf(bs, nodes) :: s.Valid()
    ensures SLOT < INODE_EXTENDED < 512
  {
    hide KindOf;
  }

  /** Builds an image of the nodes: plans the inodes, assigns addresses, writes the four
      parts.  Refused exactly when there are more blocks than addresses. */
  method BuildImage(bs: nat, sbBlocks: nat, superblock: Superblock, nodes: seq<Node>, spool: seq<byte>, compBlocks: nat, metaFirst: bool)
    returns (r: Option<Built>, ghost inodes: seq<InodeBytes>, ghost entries: seq<seq<IndexEntry>>)
    requires 512 <= bs && bs % SLOT == 0 && |spool| == bs * compBlocks
    requires forall at: nat, total: nat :: |superblock(at, total)| == bs * sbBlocks
    requires forall k :: 0 <= k < |nodes| ==> Ready(bs, spool, nodes[k])
    ensures r.Some? <==> Room(bs, sbBlocks, nodes, compBlocks, metaFirst)
    ensures r.Some? ==> Complete(bs, sbBlocks, superblock, nodes, spool, compBlocks, metaFirst, r.value, inodes, entries)
  {
    hide *;
    ShapesValid(bs, nodes);
    var shapes := ShapesOf(bs, nodes);
    var plans := PlanLayout(bs, shapes);
    var datas := DatasOf(bs, nodes, plans);
    var metaBytes := MetadataBytes(bs, shapes, plans);
    var metaBlocks := BlocksFor(bs, metaBytes);
    CountsAre(bs, sbBlocks, nodes, plans, compBlocks);
    ghost var x := CountsOf(bs, sbBlocks, nodes, compBlocks);
    var a := AssignDataBlocks(bs, sbBlocks, metaBlocks, datas, compBlocks, metaFirst);
    RoomIs(bs, sbBlocks, nodes, compBlocks, metaFirst, a, datas);
    inodes, entries := [], [];
    if !Addressable(a.compBase, compBlocks) { return None, inodes, entries; }
    AddressesFit(bs, a, x, datas, metaFirst);
    AllSound(bs, spool, compBlocks, nodes, a.compBase);
    var written, e := WriteInodes(bs, nodes, plans, a);
    AllAsPlanned(bs, nodes, plans, a, written, e);
    var meta := WriteMetadata(bs, shapes, plans, written, Zeros(bs));
    AlignUpBlocks(bs, metaBytes);
    var image, _ := WriteImage(bs, sbBlocks, superblock, meta, metaBlocks, datas, spool, compBlocks, metaFirst, a);
    var img := Built(image, a, plans);
    NodesStand(bs, nodes, img, x, superblock(a.meta, x.Total()), meta, spool, metaFirst, written, e);
    HonestParts(bs, image, a, x, superblock(a.meta, x.Total()), meta, datas, spool);
    inodes, entries := written, e;
    CompleteIs(bs, sbBlocks, superblock, nodes, spool, compBlocks, metaFirst, img, inodes, entries);
    r := Some(img);
  }

  lemma {:induction false} CountsAre(bs: nat, sbBlocks: nat, nodes: seq<Node>, plans: seq<Plan>, compBlocks: nat)
    requires bs > 0 && plans == PlanAll(bs, ShapesOf(bs, nodes), |ShapesOf(bs, nodes)|)
    ensures plans == PlansOf(bs, nodes)
    ensures CountsOf(bs, sbBlocks, nodes, compBlocks)
         == Counts(sbBlocks, BlocksFor(bs, EndOf(ShapesOf(bs, nodes), plans, |plans|)),
                   SumBlocks(bs, DatasOf(bs, nodes, plans), |DatasOf(bs, nodes, plans)|), compBlocks)
  {
    hide PlanAll, ShapesOf, DatasOf, SumBlocks, EndOf, BlocksFor;
  }

  lemma {:induction false} RoomIs(bs: nat, sbBlocks: nat, nodes: seq<Node>, compBlocks: nat, metaFirst: bool, a: Addresses, datas: seq<seq<byte>>)
    requires bs > 0 && |a.data| == |datas| && Assigned(bs, a, CountsOf(bs, sbBlocks, nodes, compBlocks), datas, metaFirst)
    ensures Room(bs, sbBlocks, nodes, compBlocks, metaFirst) <==> Addressable(a.compBase, compBlocks)
  {
    hide CountsOf, SumBlocks, AddressOk;
  }

  lemma {:induction false} AddressesFit(bs: nat, a: Addresses, x: Counts, datas: seq<seq<byte>>, metaFirst: bool)
    requires bs > 0 && |a.data| == |datas| && Assigned(bs, a, x, datas, metaFirst) && Addressable(a.compBase, x.comp)
    ensures forall k :: 0 <= k < |datas| ==> a.data[k] < 0x1_0000_0000
  {
    hide SumBlocks, BlocksFor, AddressOk;
    AssignedDisjoint(bs, a, x, datas, metaFirst);
    forall k | 0 <= k < |datas| ensures a.data[k] < 0x1_0000_0000 {
      assert AddressOk(bs, datas, DataBase(x.sb, x.meta, metaFirst), k, a.data[k]);
      NoAddress(bs, datas, DataBase(x.sb, x.meta, metaFirst), k, a.data[k]);
    }
  }

  lemma {:induction false} NoAddress(bs: nat, datas: seq<seq<byte>>, base: nat, k: nat, addr: nat)
    requires bs > 0 && k < |datas| && AddressOk(bs, datas, base, k, addr)
    ensures datas[k] == [] ==> addr == 0
  {
  }

  lemma {:induction false} AllSound(bs: nat, spool: seq<byte>, blocks: nat, nodes: seq<Node>, base: nat)
    requires 512 <= bs && |spool| == bs * blocks && Addressable(base, blocks)
    requires forall k :: 0 <= k < |nodes| ==> Ready(bs, spool, nodes[k])
    ensures forall k :: 0 <= k < |nodes| ==> CoreFits(bs, nodes[k]) && Sound(bs, nodes[k].content, base)
  {
    hide Sound, CoreFits, StoredAs, Aligned, Addressable;
    forall k | 0 <= k < |nodes| ensures CoreFits(bs, nodes[k]) && Sound(bs, nodes[k].content, base) {
      ReadySound(bs, spool, blocks, nodes[k], base);
    }
  }

  lemma {:induction false} AllAsPlanned(bs: nat, nodes: seq<Node>, plans: seq<Plan>, a: Addresses, inodes: seq<InodeBytes>, entries: seq<seq<IndexEntry>>)
    requires bs > 0 && |nodes| == |plans| == |a.data| == |inodes| == |entries|
    requires forall k :: 0 <= k < |nodes| ==> Serialised(bs, nodes[k], plans[k], a.data[k], a.compBase, plans, inodes[k], entries[k])
    ensures |ShapesOf(bs, nodes)| == |nodes| && forall k :: 0 <= k < |nodes| ==> AsPlanned(ShapesOf(bs, nodes)[k], plans[k], inodes[k])
  {
    hide AsPlanned, Behind, CoreOf, KindOf, Suits, Recordable, Small;
    forall k | 0 <= k < |nodes| ensures AsPlanned(ShapesOf(bs, nodes)[k], plans[k], inodes[k]) {
      assert Serialised(bs, nodes[k], plans[k], a.data[k], a.compBase, plans, inodes[k], entries[k]);
    }
  }

  lemma {:induction false} AlignUpBlocks(bs: nat, n: nat)
    requires bs > 0
    ensures AlignUp(n, bs) == bs * BlocksFor(bs, n)
  {
  }

  lemma {:induction false} HonestParts(bs: nat, image: seq<byte>, a: Addresses, x: Counts, sb: seq<byte>, meta: seq<byte>,
                                       datas: seq<seq<byte>>, spool: seq<byte>)
    requires bs > 0 && |a.data| == |datas| && Honest(bs, image, a, x, sb, meta, datas, spool)
    ensures |image| == bs * x.Total() && Written(bs, image, 0, sb) && Written(bs, image, a.compBase, spool) && Written(bs, image, a.meta, meta)
  {
    hide Written;
  }

  lemma {:induction false} DataStands(bs: nat, nodes: seq<Node>, img: Built, x: Counts, sb: seq<byte>, meta: seq<byte>, spool: seq<byte>,
                                      metaFirst: bool, k: nat)
    requires bs > 0 && k < |nodes| == |img.plans| == |img.a.data|
    requires Honest(bs, img.image, img.a, x, sb, meta, DatasOf(bs, nodes, img.plans), spool)
    requires Assigned(bs, img.a, x, DatasOf(bs, nodes, img.plans), metaFirst)
    ensures DataIn(bs, img, External(bs, nodes[k].content, img.plans[k].layout, img.plans), img.a.data[k])
  {
    hide Written, SumBlocks, External;
    assert AddressOk(bs, DatasOf(bs, nodes, img.plans), DataBase(x.sb, x.meta, metaFirst), k, img.a.data[k]);
  }

  lemma {:induction false} NodeIs(bs: nat, nodes: seq<Node>, img: Built, k: nat, b: InodeBytes, e: seq<IndexEntry>)
    requires bs > 0 && k < |nodes| == |img.plans| == |img.a.data|
    requires Serialised(bs, nodes[k], img.plans[k], img.a.data[k], img.a.compBase, img.plans, b, e)
    requires InodeIn(bs, img.image, img.a.meta, ShapeOf(bs, nodes[k]), img.plans[k], b)
    requires DataIn(bs, img, External(bs, nodes[k].content, img.plans[k].layout, img.plans), img.a.data[k])
    ensures NodeIn(bs, nodes, img, k, b, e)
  {
    hide InodeIn, DataIn, Behind, CoreOf, KindOf, Suits, Recordable, Small;
  }

  lemma {:induction false} NodesStand(bs: nat, nodes: seq<Node>, img: Built, x: Counts, sb: seq<byte>, meta: seq<byte>, spool: seq<byte>,
                                      metaFirst: bool, inodes: seq<InodeBytes>, entries: seq<seq<IndexEntry>>)
    requires bs > 0 && bs % SLOT == 0 && |nodes| == |img.plans| == |img.a.data| == |inodes| == |entries|
    requires Planned(bs, ShapesOf(bs, nodes), img.plans)
    requires forall k :: 0 <= k < |nodes| ==>
      Serialised(bs, nodes[k], img.plans[k], img.a.data[k], img.a.compBase, img.plans, inodes[k], entries[k])
    requires Honest(bs, img.image, img.a, x, sb, meta, DatasOf(bs, nodes, img.plans), spool)
    requires Assigned(bs, img.a, x, DatasOf(bs, nodes, img.plans), metaFirst)
    requires |meta| == AlignUp(EndOf(ShapesOf(bs, nodes), img.plans, |img.plans|), bs) && Stands(meta, img.plans, inodes, |img.plans|)
    ensures forall k :: 0 <= k < |nodes| ==> NodeIn(bs, nodes, img, k, inodes[k], entries[k])
  {
    hide Planned, Serialised, Stands, EndOf, NodeIn, DatasOf, AlignUp, Honest, Assigned, AsPlanned, InodeIn, DataIn, Written, KindOf;
    AllAsPlanned(bs, nodes, img.plans, img.a, inodes, entries);
    HonestParts(bs, img.image, img.a, x, sb, meta, DatasOf(bs, nodes, img.plans), spool);
    forall k | 0 <= k < |nodes| ensures NodeIn(bs, nodes, img, k, inodes[k], entries[k]) {
      InodeInImage(bs, img.image, img.a.meta, meta, ShapesOf(bs, nodes), img.plans, inodes, k);
      DataStands(bs, nodes, img, x, sb, meta, spool, metaFirst, k);
      NodeIs(bs, nodes, img, k, inodes[k], entries[k]);
    }
  }

  lemma {:induction false} CompleteIs(bs: nat, sbBlocks: nat, superblock: Superblock, nodes: seq<Node>, spool: seq<byte>, compBlocks: nat,
                                   metaFirst: bool, img: Built, inodes: seq<InodeBytes>, entries: seq<seq<IndexEntry>>)
    requires bs > 0 && img.plans == PlansOf(bs, nodes) && |img.a.data| == |inodes| == |entries| == |nodes|
    requires Planned(bs, ShapesOf(bs, nodes), img.plans)
    requires var x := CountsOf(bs, sbBlocks, nodes, compBlocks);
      Assigned(bs, img.a, x, DatasOf(bs, nodes, img.plans), metaFirst) && Disjoint(bs, img.a, x, DatasOf(bs, nodes, img.plans))
      && |img.image| == bs * x.Total() && Written(bs, img.image, 0, superblock(img.a.meta, x.Total()))
    requires Written(bs, img.image, img.a.compBase, spool)
    requires forall k :: 0 <= k < |nodes| ==> NodeIn(bs, nodes, img, k, inodes[k], entries[k])
    ensures Complete(bs, sbBlocks, superblock, nodes, spool, compBlocks, metaFirst, img, inodes, entries)
  {
    hide Assigned, Disjoint, NodeIn, Written, CountsOf, PlansOf, DatasOf, Planned, ShapesOf;
  }
}
