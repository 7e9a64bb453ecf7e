/**
 The whole path of the small files: ordered, packed into one stream, stored, indexed,
 placed in an image, and read back out of the packed inode.
 */
module FragmentReads {
  import opened Bytes
  import opened SpanPacker
  import opened Spool
  import opened FileMap
  import opened ZFile
  import opened ZRead
  import opened ZLoad
  import opened ReadBack
  import opened StreamPacker
  import opened Fragments

  /** A read of file number file, at position pos of it. */
  datatype Request = Request(file: nat, pos: nat)

  ghost predicate Answerable(files: seq<Source>, at: seq<Request>) {
    forall j :: 0 <= j < |at| ==> at[j].file < |files| && at[j].pos < files[at[j].file].size
  }

  /** Every requested block is the file's. */
  ghost predicate AllExact(blocks: seq<Option<Block>>, files: seq<Source>, bs: nat, at: seq<Request>)
    requires bs > 0
  {
    |blocks| == |at|
    && forall j :: 0 <= j < |at| ==> at[j].file < |files| && Exact(blocks[j], files[at[j].file], bs, at[j].pos)
  }

  ghost predicate Exact(b: Option<Block>, s: Source, bs: nat, pos: nat)
    requires bs > 0
  {
    s.Complete() && b == Some(BlockOf(s.reader[..s.size], bs, pos))
  }

  /** Reads small files out of the packed inode, in any order. */
  method ReadAll(packed: Inode, bs: nat, ghost v: View, ghost stream: seq<byte>, files: seq<Source>, offs: seq<nat>, at: seq<Request>)
    returns (blocks: seq<Option<Block>>)
    requires 0 < bs == packed.bs && packed.Indexed(v.m, v.eof) && packed.CacheOk(v.m) && v.m.Content() == stream
    requires |offs| == |files| && Placed(stream, files, offs) && Answerable(files, at)
    modifies packed
    ensures AllExact(blocks, files, bs, at)
  {
    hide Inode.Indexed, Inode.CacheOk, Flatten, Holds, BlockOf;
    blocks := [];
    while |blocks| < |at|
      invariant |blocks| <= |at| && packed.CacheOk(v.m) && AllExact(blocks, files, bs, at[..|blocks|])
    {
      var q := at[|blocks|];
      var b := ReadFragment(packed, bs, v, stream, offs[q.file], files[q.file].size, files[q.file].Buffer(), q.pos);
      assert Exact(b, files[q.file], bs, q.pos);
      blocks := blocks + [b];
    }
    assert at[..|blocks|] == at;
  }

  /** Writes the packed inode, opens it and reads the requested blocks. */
  method PlaceThenRead(store: Store, extents: seq<Extent>, raws: seq<seq<byte>>, stream: seq<byte>, files: seq<Source>, offs: seq<nat>,
                       metaStart: nat, nidOff: nat, headerEnd: nat, at: seq<Request>)
    returns (r: Outcome)
    requires store.Valid() && StoredAs(store.blockSize, store.spool, extents, raws)
    requires Flatten(raws) == stream && 512 <= store.blockSize && Aligned(store.blockSize, raws)
    requires metaStart % 32 == 0 && nidOff % 8 == 0
    requires |offs| == |files| && Placed(stream, files, offs) && Answerable(files, at)
    ensures Decided(r, store.blockSize, InodeOf(store.blockSize, extents, raws, metaStart, nidOff, headerEnd), store.compBlocks)
    ensures r.Read? ==> AllExact(r.blocks, files, store.blockSize, at)
  {
    hide *;
    var image, l, m, out, entries, ok := WriteFile(store, extents, raws, stream, metaStart, nidOff, headerEnd);
    if !ok { r := TooLarge; DecidedBy(r, store.blockSize, l, store.compBlocks); return; }
    var o := Reopen(image, store.blockSize, m, l, out, entries);
    if o.None? { r := Unsupported; DecidedBy(r, store.blockSize, l, store.compBlocks); return; }
    var packed := o.value.inode;
    OwnServes(o.value, store.blockSize, View(m, !l.compact), stream);
    var blocks := ReadAll(packed, store.blockSize, View(m, !l.compact), stream, files, offs, at);
    r := Read(blocks);
    DecidedBy(r, store.blockSize, l, store.compBlocks);
  }

  lemma {:induction false} DecidedBy(r: Outcome, bs: nat, l: Located, blocks: nat)
    requires bs > 0
    requires if !HasRoom(bs, l, blocks) then r.TooLarge? else if bs > MAX_BLOCK then r.Unsupported? else r.Read?
    ensures Decided(r, bs, l, blocks)
  {
  }

  lemma {:induction false} OwnServes(o: Opened, bs: nat, v: View, content: seq<byte>)
    requires o.Own? && Serves(o, o.inode, bs, v, content)
    ensures 0 < bs == o.inode.bs && o.inode.Indexed(v.m, v.eof) && o.inode.CacheOk(v.m) && v.m.Content() == content
  {
  }

  /** The files that are packed, in the order they are packed in. */
  function InPackingOrder(files: seq<Source>, listed: seq<string>, clean: string -> string): (ordered: seq<Source>) {
    HotPart(files, Cleaned(clean, listed)) + ColdPart(files, Cleaned(clean, listed))
  }

  /** What the packer makes of the stream of the files in that order. */
  ghost function PackedStream(packer: FragmentPacker, ordered: seq<Source>): (r: Option<seq<PackedSpan>>)
    reads packer, packer.packed
  {
    PackAll(packer.packed.pack, StreamSegments(StreamOf(packer.dedupes, ordered, |ordered|)))
  }

  /** The packed stream is stored in order, and what came of reading it is what its size
      and the block size decide. */
  ghost predicate StoredThenRead(packer: FragmentPacker, ordered: seq<Source>, r: Outcome, metaStart: nat, nidOff: nat, headerEnd: nat)
    reads packer, packer.packed, packer.packed.store
  {
    var p, spans := packer.packed, PackedStream(packer, ordered);
    spans.Some? && p.store.blockSize > 0 && StoredInOrder(p.store, p.start, p.extents, spans.value)
    && Decided(r, p.store.blockSize, InodeOf(p.store.blockSize, p.extents, RawsOf(spans.value), metaStart, nidOff, headerEnd), p.store.compBlocks)
  }

  /** Packs small files, writes the packed inode, opens it and reads the requested
      blocks.  It fails exactly when a file is short or the stream cannot be packed;
      otherwise the stream is stored as packed, and every block comes back exact if and
      only if all blocks have addresses and a reader takes the block size. */
  method PackThenRead(packer: FragmentPacker, files: seq<Source>, listed: seq<string>, clean: string -> string,
                      metaStart: nat, nidOff: nat, headerEnd: nat, at: seq<Request>)
    returns (ordered: seq<Source>, r: Outcome)
    requires packer.Valid() && packer.known == map[] && packer.packed.written == [] && DistinctPaths(files)
    requires 512 <= packer.packed.store.blockSize && metaStart % 32 == 0 && nidOff % 8 == 0
    requires Answerable(InPackingOrder(files, listed, clean), at)
    modifies packer, packer.packed, packer.packed.store
    ensures multiset(ordered) == multiset(files) && ordered == InPackingOrder(files, listed, clean)
    ensures r.CompressorFailed? <==> (exists s <- files :: !s.Complete()) || PackedStream(packer, ordered).None?
    ensures !r.CompressorFailed? ==> StoredThenRead(packer, ordered, r, metaStart, nidOff, headerEnd)
    ensures r.Read? ==> AllExact(r.blocks, ordered, packer.packed.store.blockSize, at)
  {
    hide *;
    OrderIs(files, listed, clean);
    var offs, ok;
    ordered, offs, ok := packer.Pack(files, listed, clean);
    PackedIs(packer, ordered);
    if !ok { return ordered, CompressorFailed; }
    var p := packer.packed;
    var stream := StreamOf(packer.dedupes, ordered, |ordered|);
    var spans := PackAll(p.pack, StreamSegments(stream)).value;
    PartitionRaws(p.store.blockSize, p.profile, spans, stream);
    InOrder(p.store, p.start, p.extents, spans);
    r := PlaceThenRead(p.store, p.extents, RawsOf(spans), stream, ordered, offs, metaStart, nidOff, headerEnd, at);
    DecidedPacked(r, p.store.blockSize, InodeOf(p.store.blockSize, p.extents, RawsOf(spans), metaStart, nidOff, headerEnd), p.store.compBlocks);
    ThenRead(packer, ordered, spans, r, metaStart, nidOff, headerEnd);
  }

  lemma {:induction false} ThenRead(packer: FragmentPacker, ordered: seq<Source>, spans: seq<PackedSpan>, r: Outcome, metaStart: nat,
                                    nidOff: nat, headerEnd: nat)
    requires PackedStream(packer, ordered) == Some(spans) && packer.packed.store.blockSize > 0
    requires var p := packer.packed; StoredInOrder(p.store, p.start, p.extents, spans)
    requires var p := packer.packed;
      Decided(r, p.store.blockSize, InodeOf(p.store.blockSize, p.extents, RawsOf(spans), metaStart, nidOff, headerEnd), p.store.compBlocks)
    ensures StoredThenRead(packer, ordered, r, metaStart, nidOff, headerEnd)
  {
    hide StoredInOrder, Decided, InodeOf, PackedStream;
  }

  lemma {:induction false} OrderIs(files: seq<Source>, listed: seq<string>, clean: string -> string)
    ensures InPackingOrder(files, listed, clean) == HotPart(files, Cleaned(clean, listed)) + ColdPart(files, Cleaned(clean, listed))
  {
  }

  lemma {:induction false} PackedIs(packer: FragmentPacker, ordered: seq<Source>)
    ensures PackedStream(packer, ordered) == PackAll(packer.packed.pack, StreamSegments(StreamOf(packer.dedupes, ordered, |ordered|)))
  {
  }
}
