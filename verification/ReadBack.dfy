/**
 The whole path of a file: packed, stored, indexed, placed in an image, opened
 and read back block by block.
 */
module ReadBack {
  import opened Bytes
  import opened Arith
  import opened SpanPacker
  import opened Spool
  import opened FileMap
  import opened ZIndex
  import opened ZFile
  import opened ZRead
  import opened ZTrailing
  import opened ZLoad

  /** Block addresses are 32 bits wide. */
  predicate Addressable(base: nat, blocks: nat) { base + blocks < 0x1_0000_0000 }

  /** An image of one file: zeros, its trailing area, padding, and the data blocks. */
  function ImageOf(before: nat, out: seq<byte>, dataAt: nat, spool: seq<byte>): (image: seq<byte>)
    requires before + |out| <= dataAt
    ensures |image| == dataAt + |spool|
    ensures Slice(image, before, |out|) == out && image[dataAt..dataAt + |spool|] == spool
  {
    var image := Zeros(before) + out + Zeros(dataAt - before - |out|) + spool;
    assert |Zeros(before) + out + Zeros(dataAt - before - |out|)| == dataAt;
    image
  }

  /** The first whole block after the metadata. */
  lemma {:induction false} DataAfter(n: nat, bs: nat)
    requires bs > 0
    ensures CeilDiv(n, bs) >= 0 && n <= bs * CeilDiv(n, bs)
  {
    CeilNat(n, bs);
    CeilBounds(n, bs);
  }

  /** Stored extents fit the index fields wherever they are placed. */
  lemma {:induction false} PlacedIndexable(bs: nat, base: nat, spool: seq<byte>, blocks: nat, extents: seq<Extent>, raws: seq<seq<byte>>)
    requires 512 <= bs && StoredAs(bs, spool, extents, raws) && Aligned(bs, raws)
    requires |spool| == bs * blocks && Addressable(base, blocks)
    ensures Indexable(FileMapping(bs, base, extents, raws))
  {
    hide StoredAs, Mapped, Indexable, Aligned;
    var image := Zeros(bs * base) + spool;
    assert image[bs * base..bs * base + |spool|] == spool;
    PlacedMapped(image, bs, base, spool, blocks, extents, raws);
    MappedIndexable(image, FileMapping(bs, base, extents, raws));
  }

  /** An inode opened over a described file serves its content. */
  lemma {:induction false} OpenServes(o: Opened, l: Located, m: Mapping, image: seq<byte>, out: seq<byte>, entries: seq<IndexEntry>)
    requires Mapped(image, m) && Described(image, l, Extents(m), out, entries) && Supported(m.bs)
    requires OpensAs(o, image, m.bs, l, IndexArray(l.compact)) && o.inode.extStartLcn == -1 && o.inode.extEndLcn == 0
    ensures o.Own? && Serves(o, o.inode, m.bs, View(m, !l.compact), m.Content())
  {
    hide Mapped, TrailingHolds, Writable, Inode.Indexed, HeaderPos;
    HeaderPosPadded(l);
    assert OpenOver(o.inode, l, m, out, entries);
    OpenIndexed(o.inode, l, m, out, entries);
  }

  /** What came of building an image and reading it. */
  datatype Outcome =
    | Read(blocks: seq<Option<Block>>)
    | CompressorFailed
    | Unsupported              // the reader does not open images of this block size
    | TooLarge                 // more blocks than addresses

  /** Every requested block came back exact. */
  ghost predicate ReadsAs(r: Outcome, content: seq<byte>, bs: nat, at: seq<nat>)
    requires bs > 0
  {
    r.Read? && |r.blocks| == |at| && forall j :: 0 <= j < |at| ==> r.blocks[j] == Some(BlockOf(content, bs, at[j]))
  }

  /** The inode of a stored file, with its header at the given place. */
  function InodeOf(bs: nat, extents: seq<Extent>, raws: seq<seq<byte>>, metaStart: nat, nidOff: nat, headerEnd: nat): (l: Located) {
    Located(metaStart, nidOff, headerEnd, |Flatten(raws)|, CanCompact(Extents(FileMapping(bs, 0, extents, raws))))
  }

  /** The first whole block behind an inode and its trailing area. */
  function BaseOf(bs: nat, l: Located): (base: nat)
    requires bs > 0
    ensures l.TrailingAt() + TrailingSize(false, l.compact, l.nidOff, l.headerEnd, l.size, bs) <= bs * base
  {
    var end := l.TrailingAt() + TrailingSize(false, l.compact, l.nidOff, l.headerEnd, l.size, bs);
    DataAfter(end, bs);
    CeilDiv(end, bs)
  }

  /** An image of the inode and of that many data blocks has addresses for all of them. */
  predicate HasRoom(bs: nat, l: Located, blocks: nat)
    requires bs > 0
  {
    Addressable(BaseOf(bs, l), blocks)
  }

  /** What comes of a packed file depends on its size and on the block size alone. */
  predicate Decided(r: Outcome, bs: nat, l: Located, blocks: nat)
    requires bs > 0
  {
    !r.CompressorFailed? && (r.TooLarge? <==> !HasRoom(bs, l, blocks))
    && (r.Unsupported? <==> HasRoom(bs, l, blocks) && bs > MAX_BLOCK) && (r.Read? <==> HasRoom(bs, l, blocks) && bs <= MAX_BLOCK)
  }

  /** Compresses content, writes the image, opens the inode and reads the blocks at
      the given positions, in that order.  Unless the compressor fails on a stretch of
      the content, it is stored as packed; then every block comes back exact, in both
      index layouts, if and only if all blocks have addresses and a reader takes the
      block size. */
  method CompressThenRead(worker: Worker, store: Store, content: seq<byte>, profile: Profile,
                          metaStart: nat, nidOff: nat, headerEnd: nat, at: seq<nat>)
    returns (extents: seq<Extent>, spans: seq<PackedSpan>, r: Outcome)
    requires worker.Valid() && store.Valid() && worker.blockSize == store.blockSize && worker.Serves(profile)
    requires 512 <= store.blockSize && metaStart % 32 == 0 && nidOff % 8 == 0
    requires forall j :: 0 <= j < |at| ==> at[j] < |content|
    modifies worker, worker.encoder, worker.encoder.head, worker.encoder.chain, worker.probe, worker.kept, store
    ensures r.CompressorFailed? ==> worker.FailsIn(content)
    ensures !r.CompressorFailed? ==> StoredInOrder(store, old(store.State()), extents, spans)
    ensures !r.CompressorFailed? ==> Partitions(store.blockSize, profile, true, spans, content) && worker.AllChosen(content, profile, true, spans)
    ensures !r.CompressorFailed? ==>
      Decided(r, store.blockSize, InodeOf(store.blockSize, extents, RawsOf(spans), metaStart, nidOff, headerEnd), store.compBlocks)
    ensures r.Read? ==> ReadsAs(r, content, store.blockSize, at)
  {
    hide StoredInOrder, Partitions, worker.FailsIn, InodeOf, Decided, Worker.AllChosen;
    var ok;
    extents, spans, ok := CompressBuffer(worker, store, content, profile);
    if !ok { return extents, spans, CompressorFailed; }
    PartitionRaws(store.blockSize, profile, spans, content);
    InOrder(store, old(store.State()), extents, spans);
    r := WriteThenRead(store, extents, RawsOf(spans), content, metaStart, nidOff, headerEnd, at);
    DecidedPacked(r, store.blockSize, InodeOf(store.blockSize, extents, RawsOf(spans), metaStart, nidOff, headerEnd), store.compBlocks);
  }

  lemma {:induction false} DecidedPacked(r: Outcome, bs: nat, l: Located, blocks: nat)
    requires bs > 0 && Decided(r, bs, l, blocks)
    ensures !r.CompressorFailed?
  {
  }

  lemma {:induction false} InOrder(store: Store, start: SpoolState, extents: seq<Extent>, spans: seq<PackedSpan>)
    requires StoredInOrder(store, start, extents, spans)
    ensures store.Valid() && StoredAs(store.blockSize, store.spool, extents, RawsOf(spans))
  {
  }

  /** Writes an image of one stored file: its trailing area and the data blocks.  Refused
      exactly when the blocks outnumber the addresses. */
  method WriteFile(store: Store, extents: seq<Extent>, raws: seq<seq<byte>>, content: seq<byte>,
                   metaStart: nat, nidOff: nat, headerEnd: nat)
    returns (image: seq<byte>, l: Located, ghost m: Mapping, out: seq<byte>, ghost entries: seq<IndexEntry>, ok: bool)
    requires store.Valid() && StoredAs(store.blockSize, store.spool, extents, raws)
    requires Flatten(raws) == content && 512 <= store.blockSize && Aligned(store.blockSize, raws)
    requires metaStart % 32 == 0 && nidOff % 8 == 0
    ensures l == InodeOf(store.blockSize, extents, raws, metaStart, nidOff, headerEnd) && l.size == |content|
    ensures ok <==> HasRoom(store.blockSize, l, store.compBlocks)
    ensures ok ==> m == FileMapping(store.blockSize, BaseOf(store.blockSize, l), extents, raws)
    ensures ok ==> Mapped(image, m) && m.bs == store.blockSize && m.Content() == content
    ensures ok ==> Described(image, l, Extents(m), out, entries)
  {
    hide StoredAs, Aligned, Mapped, TrailingSize, TrailingHolds, Indexable, CanCompact, Slice, CeilDiv, Flatten, ReadsBack, Store.Balanced, IndexStart, FileMapping, ImageOf, PlaceAll, BaseOf;
    var bs := store.blockSize;
    image, out, entries := [], [], [];
    l := InodeOf(bs, extents, raws, metaStart, nidOff, headerEnd);
    var base := BaseOf(bs, l);
    m := FileMapping(bs, base, extents, raws);
    ok := Addressable(base, store.compBlocks);
    if !ok { return; }
    PlacedIndexable(bs, base, store.spool, store.compBlocks, extents, raws);
    PlaceKeepsCompact(bs, base, extents, raws);
    FileMappingIs(bs, base, extents, raws);
    out, entries := WriteTrailing(Extents(FileMapping(bs, base, extents, raws)), l.compact, nidOff, headerEnd, |content|, bs);
    image := ImageOf(l.TrailingAt(), out, bs * base, store.spool);
    PlacedMapped(image, bs, base, store.spool, store.compBlocks, extents, raws);
  }

  /** Writes an image of one stored file and reads it back. */
  method WriteThenRead(store: Store, extents: seq<Extent>, raws: seq<seq<byte>>, content: seq<byte>,
                       metaStart: nat, nidOff: nat, headerEnd: nat, at: seq<nat>)
    returns (r: Outcome)
    requires store.Valid() && StoredAs(store.blockSize, store.spool, extents, raws)
    requires Flatten(raws) == content && 512 <= store.blockSize && Aligned(store.blockSize, raws)
    requires metaStart % 32 == 0 && nidOff % 8 == 0
    requires forall j :: 0 <= j < |at| ==> at[j] < |content|
    ensures Decided(r, store.blockSize, InodeOf(store.blockSize, extents, raws, metaStart, nidOff, headerEnd), store.compBlocks)
    ensures r.Read? ==> ReadsAs(r, content, store.blockSize, at)
  {
    hide StoredAs, Aligned, Mapped, Described, Flatten, BlockOf, Store.Valid, InodeOf, HasRoom, FileMapping;
    var image, l, m, out, entries, ok := WriteFile(store, extents, raws, content, metaStart, nidOff, headerEnd);
    if !ok { return TooLarge; }
    var file := Reopen(image, store.blockSize, m, l, out, entries);
    if file.None? { return Unsupported; }
    var blocks := ReadMany(file.value, file.value.inode, store.blockSize, l.size, View(m, !l.compact), content, at);
    r := Read(blocks);
  }

  /** Opens the inode of a described file; refused exactly for its block size. */
  method Reopen(image: seq<byte>, bs: nat, ghost m: Mapping, l: Located, ghost out: seq<byte>, ghost entries: seq<IndexEntry>)
    returns (r: Option<Opened>)
    requires 512 <= bs == m.bs && Mapped(image, m) && Described(image, l, Extents(m), out, entries)
    ensures r.Some? <==> bs <= MAX_BLOCK
    ensures r.Some? ==> r.value.Own? && fresh(r.value.inode)
    ensures r.Some? ==> Serves(r.value, r.value.inode, bs, View(m, !l.compact), m.Content())
  {
    hide Mapped, OpensAs, HeaderAt, Serves, Slice, Flatten;
    DescribedHeader(image, l, Extents(m), out, entries);
    hide Described;
    r := Open(image, bs, l);
    if r.Some? {
      IndexArrayOwn(r.value, image, bs, l);
      OpenServes(r.value, l, m, image, out, entries);
    }
  }

  lemma {:induction false} IndexArrayOwn(o: Opened, image: seq<byte>, bs: nat, l: Located)
    requires bs > 0 && OpensAs(o, image, bs, l, IndexArray(l.compact))
    ensures o.Own?
  {
  }
}
