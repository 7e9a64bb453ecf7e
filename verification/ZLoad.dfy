/**
 Opening a compressed inode and reading it block by block: from its own extents,
 or out of the packed inode that holds small files.
 */
module ZLoad {
  import opened Bytes
  import opened Arith
  import opened Spool
  import opened FileMap
  import opened ZIndex
  import opened CompactIndex
  import opened CompactWriter
  import opened ZRead
  import opened ZTrailing

  /** An inode as the reader finds it: where it starts, and what its core says. */
  datatype Located = Located(metaStart: nat, nidOff: nat, headerEnd: nat, size: nat, compact: bool) {
    function TrailingAt(): (r: nat) { metaStart + nidOff + headerEnd }
  }

  // ---- what a written trailing area promises ------------------------------------------

  /** The area that WriteTrailing wrote for z stands behind the inode in the image. */
  ghost predicate Described(image: seq<byte>, l: Located, z: ZInfo, out: seq<byte>, entries: seq<IndexEntry>) {
    l.metaStart % 32 == 0 && l.nidOff % 8 == 0 && Writable(z, l.compact)
    && TrailingHolds(z, l.compact, l.nidOff, l.headerEnd, out, entries)
    && l.TrailingAt() + |out| <= |image| && Slice(image, l.TrailingAt(), |out|) == out
    && (z.Extents? ==> l.size == |z.mapping.Content()|)
  }

  /** Only the alignment of the array decides which pack holds a cluster. */
  lemma {:induction false} PackOfAligned(metaStart: nat, idxStart: nat, n: nat, lcn: nat)
    requires metaStart % 32 == 0 && lcn < n
    ensures PackOf(metaStart + idxStart, n, lcn) == PackOf(idxStart, n, lcn)
  {
    SumMod(metaStart, idxStart, 32);
    assert Initial(metaStart + idxStart, n) == Initial(idxStart, n);
  }

  lemma {:induction false} CompactMeans(image: seq<byte>, m: Mapping, metaStart: nat, idxStart: nat, entries: seq<IndexEntry>,
                                        buf: seq<byte>, k: nat, i: nat)
    requires Compactable(m) && Lists(m, false, |m.extents|, entries) && ArrayHolds(m, entries, idxStart, buf)
    requires metaStart % 32 == 0 && metaStart + idxStart + |buf| <= |image| && Slice(image, metaStart + idxStart, |buf|) == buf
    requires k < |m.extents| && i < m.extents[k].lclusters
    ensures Start(m.extents, k) + i < |entries|
    ensures var r := CompactIndexAt(image, metaStart + idxStart, |entries|, Start(m.extents, k) + i);
      r.Some? && Means(m, false, k, i, r.value)
  {
    hide Means, CompactIndexAt, RecordsFor, PackHolds, TrueBase, PackOf;
    var lcn := Start(m.extents, k) + i;
    StartMonotone(m.extents, k + 1, |m.extents|);
    assert PackWritten(m, entries, idxStart, buf, lcn);
    PackOfAligned(metaStart, idxStart, |entries|, lcn);
    OwnerOf(m.extents, |m.extents|, k, i);
    CompactRoundTrip(image, m, metaStart + idxStart, entries, buf, lcn);
  }

  lemma {:induction false} FullMeans(image: seq<byte>, m: Mapping, at: nat, entries: seq<IndexEntry>, k: nat, i: nat)
    requires Mapped(image, m) && Lists(m, true, |m.extents|, entries) && forall e <- entries :: Storable(e)
    requires k < |m.extents| && i < m.extents[k].lclusters
    requires var body := Zeros(FULL_INDEX_EXTRA) + PutEntries(entries);
      at + |body| <= |image| && Slice(image, at, |body|) == body
    ensures var r := FullIndexAt(image, at + FULL_INDEX_EXTRA, Start(m.extents, k) + i);
      r.Some? && Means(m, true, k, i, r.value)
  {
    hide Means, FullIndexAt, Mapped, Lists;
    var body := Zeros(FULL_INDEX_EXTRA) + PutEntries(entries);
    SliceOfSlice(image, at, body, FULL_INDEX_EXTRA, 8 * |entries|);
    assert Slice(body, FULL_INDEX_EXTRA, 8 * |entries|) == PutEntries(entries);
    FullIndexRoundTrip(image, m, at + FULL_INDEX_EXTRA, entries, k, i);
  }

  /** ino was opened over the area that describes m. */
  ghost predicate OpenOver(ino: Inode, l: Located, m: Mapping, out: seq<byte>, entries: seq<IndexEntry>) {
    Mapped(ino.image, m) && Described(ino.image, l, Extents(m), out, entries)
    && ino.bs == m.bs <= MAX_BLOCK && ino.size == l.size && ino.nIdx == CeilDiv(l.size, m.bs) && ino.compact == l.compact
    && ino.idxStart == l.metaStart + IndexStart(l.nidOff, l.headerEnd, l.compact)
  }

  /** The bytes behind the header, where the reader looks for them. */
  lemma {:induction false} BodyInImage(image: seq<byte>, l: Located, z: ZInfo, out: seq<byte>, entries: seq<IndexEntry>)
    requires Described(image, l, z, out, entries)
    ensures var at := Pad8(l.headerEnd) + HEADER_SIZE;
      at <= |out| && l.TrailingAt() + |out| <= |image| && Slice(image, l.TrailingAt() + at, |out| - at) == out[at..]
  {
    hide Lists, PutHeader, ArrayHolds;
    var at := Pad8(l.headerEnd) + HEADER_SIZE;
    SliceOfSlice(image, l.TrailingAt(), out, at, |out| - at);
    assert Slice(out, at, |out| - at) == out[at..];
  }

  lemma {:induction false} OpenCompact(ino: Inode, l: Located, m: Mapping, out: seq<byte>, entries: seq<IndexEntry>, k: nat, i: nat)
    requires OpenOver(ino, l, m, out, entries) && k < |m.extents| && i < m.extents[k].lclusters && l.compact
    ensures m.bs > 0 && ino.IndexMeans(m, false, k, i)
  {
    hide Mapped, Lists, Means, PutHeader, ArrayHolds, ExtentOk, CompactIndexAt, Indexable, CanCompact, Compactable, Start, Pad8, Slice;
    MappedIndexable(ino.image, m);
    IndexableCount(m);
    BodyInImage(ino.image, l, Extents(m), out, entries);
    ClusterInRange(m.extents, k, i);
    CompactEntries(m, entries);
    ListsCount(m, false, entries);
    CompactMeans(ino.image, m, l.metaStart, IndexStart(l.nidOff, l.headerEnd, true), entries,
                 out[Pad8(l.headerEnd) + HEADER_SIZE..], k, i);
  }

  lemma {:induction false} OpenFull(ino: Inode, l: Located, m: Mapping, out: seq<byte>, entries: seq<IndexEntry>, k: nat, i: nat)
    requires OpenOver(ino, l, m, out, entries) && k < |m.extents| && i < m.extents[k].lclusters && !l.compact
    ensures m.bs > 0 && ino.IndexMeans(m, true, k, i)
  {
    hide Mapped, Lists, Means, PutHeader, ExtentOk, FullIndexAt, PutEntries, Indexable, CanCompact, Start, Pad8, Slice;
    MappedIndexable(ino.image, m);
    IndexableCount(m);
    BodyInImage(ino.image, l, Extents(m), out, entries);
    ClusterInRange(m.extents, k, i);
    FullMeans(ino.image, m, l.TrailingAt() + Pad8(l.headerEnd) + HEADER_SIZE, entries, k, i);
  }

  lemma {:induction false} IndexableCount(m: Mapping)
    requires Indexable(m)
    ensures 512 <= m.bs && Start(m.extents, |m.extents|) == CeilDiv(|m.Content()|, m.bs)
  {
  }

  lemma {:induction false} ListsCount(m: Mapping, eof: bool, entries: seq<IndexEntry>)
    requires m.bs > 0 && Lists(m, eof, |m.extents|, entries)
    ensures |entries| == Start(m.extents, |m.extents|)
  {
  }

  /** The written area makes an inode opened over it describe the file. */
  lemma {:induction false} OpenIndexed(ino: Inode, l: Located, m: Mapping, out: seq<byte>, entries: seq<IndexEntry>)
    requires OpenOver(ino, l, m, out, entries)
    ensures ino.Indexed(m, !l.compact)
  {
    hide ino.IndexMeans, TrailingHolds, Writable, Mapped, Start, CeilDiv;
    MappedIndexable(ino.image, m);
    var eof := !l.compact;
    forall k, i | 0 <= k < |m.extents| && 0 <= i < m.extents[k].lclusters ensures ino.IndexMeans(m, eof, k, i) {
      if l.compact { OpenCompact(ino, l, m, out, entries, k, i); } else { OpenFull(ino, l, m, out, entries, k, i); }
    }
  }

  lemma {:induction false} ClusterInRange(extents: seq<Extent>, k: nat, i: nat)
    requires k < |extents| && i < extents[k].lclusters
    ensures Start(extents, k) + i < Start(extents, |extents|)
  {
    StartMonotone(extents, k + 1, |extents|);
  }

  // ---- opening an inode -------------------------------------------------------------------

  function HeaderPos(l: Located): (r: nat) { (l.TrailingAt() + 7) / 8 * 8 }

  function HeaderAt(image: seq<byte>, l: Located): (r: Option<MapHeader>) {
    var b := Slice(image, HeaderPos(l), HEADER_SIZE);
    if |b| < HEADER_SIZE then None else GetHeader(b, l.compact)
  }

  lemma {:induction false} HeaderPosPadded(l: Located)
    requires l.metaStart % 32 == 0 && l.nidOff % 8 == 0
    ensures HeaderPos(l) == l.TrailingAt() + Pad8(l.headerEnd)
  {
    var p, t := Pad8(l.headerEnd), l.TrailingAt();
    SumMod(l.metaStart, l.nidOff, 8);
    SumMod(l.metaStart + l.nidOff, l.headerEnd + p, 8);
    assert (t + p) % 8 == 0;
    DivUnique(t + 7, 8, (t + p) / 8, 7 - p);
  }

  /** The header read is the header written. */
  lemma {:induction false} DescribedHeader(image: seq<byte>, l: Located, z: ZInfo, out: seq<byte>, entries: seq<IndexEntry>)
    requires Described(image, l, z, out, entries)
    ensures HeaderAt(image, l) == Some(HeaderOf(z, l.compact))
  {
    hide GetHeader, PutHeader, ArrayHolds, Lists;
    HeaderPosPadded(l);
    SliceOfSlice(image, l.TrailingAt(), out, Pad8(l.headerEnd), HEADER_SIZE);
    HeaderRoundTrip(HeaderOf(z, l.compact), l.compact);
  }

  datatype Opened = InPacked(fragOff: nat) | Own(inode: Inode)

  ghost predicate OpensAs(o: Opened, image: seq<byte>, bs: nat, l: Located, h: MapHeader)
    requires bs > 0
  {
    match h
    case Whole(off) => o == InPacked(off)
    case IndexArray(compact) =>
      o.Own? && o.inode.image == image && o.inode.bs == bs && o.inode.size == l.size && o.inode.compact == compact
      && o.inode.nIdx == CeilDiv(l.size, bs)
      && o.inode.idxStart == HeaderPos(l) + HEADER_SIZE + (if compact then 0 else FULL_INDEX_EXTRA)
  }

  /** The block sizes a reader takes. */
  predicate Supported(bs: nat) { 512 <= bs <= MAX_BLOCK }

  /** Parses the map header; None when the block size is not supported, or the header
      cannot be read or is not supported. */
  method Open(image: seq<byte>, bs: nat, l: Located) returns (r: Option<Opened>)
    ensures r.Some? <==> Supported(bs) && HeaderAt(image, l).Some?
    ensures r.Some? ==> OpensAs(r.value, image, bs, l, HeaderAt(image, l).value)
    ensures r.Some? && r.value.Own? ==> fresh(r.value.inode) && r.value.inode.extStartLcn == -1 && r.value.inode.extEndLcn == 0
  {
    if bs < 512 || bs > 65536 { return None; }
    var pos := HeaderPos(l);
    var b := Slice(image, pos, HEADER_SIZE);
    if |b| < HEADER_SIZE { return None; }
    var h := GetHeader(b, l.compact);
    if h.None? { return None; }
    match h.value {
      case Whole(off) => r := Some(InPacked(off));
      case IndexArray(compact) =>
        var idxStart := pos + HEADER_SIZE + if compact then 0 else FULL_INDEX_EXTRA;
        var inode := new Inode(image, bs, l.size, idxStart, compact);
        r := Some(Own(inode));
    }
  }

  // ---- reading -----------------------------------------------------------------------------

  /** The block that holds offset off. */
  lemma {:induction false} BlockAt(bs: nat, size: nat, off: nat)
    requires bs > 0 && off < size
    ensures var lcn := off / bs; lcn < CeilDiv(size, bs) && off == bs * lcn + off % bs && off % bs < BlockLen(bs, size, lcn)
  {
    CeilBounds(size, bs);
    var lcn, all := off / bs, CeilDiv(size, bs);
    hide CeilDiv;
    assert off == bs * lcn + off % bs;
    if lcn >= all { MulMonotone(bs, all, lcn); }
  }

  /** The rest of the block that holds offset off. */
  lemma {:induction false} BlockRest(s: seq<byte>, bs: nat, off: nat)
    requires bs > 0 && off < |s|
    ensures var lcn, d := off / bs, off % bs; var n := BlockLen(bs, |s|, lcn);
      lcn < CeilDiv(|s|, bs) && d < n && off + (n - d) <= |s|
      && |Slice(s, bs * lcn, n)| == n && Slice(s, bs * lcn, n)[d..] == Slice(s, off, n - d)
  {
    hide CeilDiv, Slice;
    BlockAt(bs, |s|, off);
    SliceTail(s, bs * (off / bs), BlockLen(bs, |s|, off / bs), off % bs);
  }

  /** Reads on from off to the end of its block. */
  method ReadOn(packed: Inode, ghost m: Mapping, ghost eof: bool, off: nat) returns (r: Option<seq<byte>>)
    requires packed.Indexed(m, eof) && packed.CacheOk(m) && packed.bs > 0
    modifies packed
    ensures packed.CacheOk(m)
    ensures r.Some? <==> off < |m.Content()|
    ensures r.Some? ==> r.value != [] && off + |r.value| <= |m.Content()| && r.value == Slice(m.Content(), off, |r.value|)
  {
    hide *;
    packed.IndexedFacts(m, eof);
    ClusterCount(packed.image, m);
    if off >= packed.size { return None; }
    BlockRest(m.Content(), packed.bs, off);
    var lcn := off / packed.bs;
    var n := BlockLen(packed.bs, packed.size, lcn);
    var blk := packed.ReadBlock(m, eof, lcn, n);
    if blk.None? { return None; }
    r := Some(blk.value[off % packed.bs..]);
  }

  lemma {:induction false} SliceTail(s: seq<byte>, at: nat, n: nat, d: nat)
    requires at + n <= |s| && d <= n
    ensures |Slice(s, at, n)| == n && Slice(s, at, n)[d..] == Slice(s, at + d, n - d)
  {
  }

  lemma {:induction false} SliceGrows(s: seq<byte>, at: nat, n: nat, more: nat, take: nat)
    requires at + n + more <= |s| && take <= more
    ensures Slice(s, at, n) + Slice(s, at + n, more)[..take] == Slice(s, at, n + take)
    ensures |Slice(s, at + n, more)| == more
  {
  }

  lemma {:induction false} EmptySlice(s: seq<byte>, at: nat)
    ensures Slice(s, at, 0) == []
  {
  }

  /** The packed stream has n bytes from off on. */
  predicate InRange(m: Mapping, off: nat, n: nat) { n == 0 || off + n <= |m.Content()| }

  /** Reads n bytes of the packed inode's data, block by block: the bytes there, or an
      error exactly when the range leaves the inode. */
  method ReadPacked(packed: Inode, ghost m: Mapping, ghost eof: bool, fragOff: nat, n: nat) returns (r: Option<seq<byte>>)
    requires packed.Indexed(m, eof) && packed.CacheOk(m) && packed.bs > 0
    modifies packed
    ensures packed.CacheOk(m)
    ensures r == (if InRange(m, fragOff, n) then Some(Slice(m.Content(), fragOff, n)) else None)
  {
    hide packed.CacheOk, packed.Indexed, Mapped, Slice, Flatten;
    packed.IndexedFacts(m, eof);
    EmptySlice(m.Content(), fragOff);
    var off, got := fragOff, [];
    while |got| < n
      invariant |got| <= n && off == fragOff + |got| && InRange(m, fragOff, |got|)
      invariant got == Slice(m.Content(), fragOff, |got|)
      invariant packed.CacheOk(m)
      decreases n - |got|
    {
      var avail := ReadOn(packed, m, eof, off);
      if avail.None? { return None; }
      var take := Min(|avail.value|, n - |got|);
      SliceGrows(m.Content(), fragOff, |got|, |avail.value|, take);
      got, off := got + avail.value[..take], off + take;
    }
    r := Some(got);
  }

  // ---- files ---------------------------------------------------------------------------------

  /** What an inode's index array describes. */
  datatype View = View(m: Mapping, eof: bool)

  /** The inode whose extents hold the file. */
  function Backing(o: Opened, packed: Inode): (i: Inode) { if o.Own? then o.inode else packed }

  /** The opened file's bytes are content, in its own extents or in the packed inode. */
  ghost predicate Serves(o: Opened, packed: Inode, bs: nat, v: View, content: seq<byte>)
    reads Backing(o, packed)
  {
    var ino := Backing(o, packed);
    0 < bs == ino.bs && ino.Indexed(v.m, v.eof) && ino.CacheOk(v.m)
    && (if o.Own? then v.m.Content() == content else Slice(v.m.Content(), o.fragOff, |content|) == content)
  }

  datatype Block = Block(offset: nat, bytes: seq<byte>)

  /** The block a reader of content should get for position pos. */
  function BlockOf(content: seq<byte>, bs: nat, pos: nat): (b: Block)
    requires bs > 0
  {
    Block(pos % bs, Slice(content, bs * (pos / bs), BlockLen(bs, |content|, pos / bs)))
  }

  method LoadBytes(o: Opened, packed: Inode, bs: nat, ghost v: View, ghost content: seq<byte>, bn: nat, n: nat)
    returns (r: Option<seq<byte>>)
    requires Serves(o, packed, bs, v, content) && bs * bn < |content| && n == BlockLen(bs, |content|, bn)
    modifies Backing(o, packed)
    ensures Serves(o, packed, bs, v, content) && r == Some(Slice(content, bs * bn, n))
  {
    hide Inode.CacheOk, Inode.Indexed, Mapped, CeilDiv, Start, Slice, Flatten;
    Backing(o, packed).IndexedFacts(v.m, v.eof);
    if o.Own? {
      ClusterCount(o.inode.image, v.m);
      BlockInFile(bs, |content|, bn);
      r := o.inode.ReadBlock(v.m, v.eof, bn, n);
    } else {
      SliceInRange(v.m.Content(), o.fragOff, content);
      r := ReadPacked(packed, v.m, v.eof, o.fragOff + bs * bn, n);
      SliceInside(v.m.Content(), o.fragOff, content, bs * bn, n);
    }
  }

  lemma {:induction false} SliceInRange(s: seq<byte>, at: nat, part: seq<byte>)
    requires Slice(s, at, |part|) == part && |part| > 0
    ensures at + |part| <= |s|
  {
  }

  lemma {:induction false} BlockInFile(bs: nat, size: nat, bn: nat)
    requires bs > 0 && bs * bn < size
    ensures bn < CeilDiv(size, bs)
  {
    CeilBounds(size, bs);
    if CeilDiv(size, bs) <= bn { MulMonotone(bs, CeilDiv(size, bs), bn); }
  }

  /** The logical block that contains pos. */
  method LoadBlock(o: Opened, packed: Inode, bs: nat, size: nat, ghost v: View, ghost content: seq<byte>, pos: nat)
    returns (r: Option<Block>)
    requires Serves(o, packed, bs, v, content) && pos < size == |content|
    modifies Backing(o, packed)
    ensures bs > 0 && Serves(o, packed, bs, v, content) && r == Some(BlockOf(content, bs, pos))
  {
    hide Serves, Slice, BlockLen;
    ServesBlocks(o, packed, bs, v, content);
    BlockAt(bs, size, pos);
    var bn := pos / bs;
    var bytes := LoadBytes(o, packed, bs, v, content, bn, BlockLen(bs, size, bn));
    r := if bytes.Some? then Some(Block(pos % bs, bytes.value)) else None;
  }

  lemma {:induction false} ServesBlocks(o: Opened, packed: Inode, bs: nat, v: View, content: seq<byte>)
    requires Serves(o, packed, bs, v, content)
    ensures bs > 0
  {
  }

  /** Reads through the one remembered extent, in whatever order: every block is exact. */
  method ReadMany(o: Opened, packed: Inode, bs: nat, size: nat, ghost v: View, ghost content: seq<byte>, at: seq<nat>)
    returns (blocks: seq<Option<Block>>)
    requires bs > 0 && Serves(o, packed, bs, v, content) && size == |content|
    requires forall j :: 0 <= j < |at| ==> at[j] < size
    modifies Backing(o, packed)
    ensures Serves(o, packed, bs, v, content) && |blocks| == |at|
    ensures forall j :: 0 <= j < |at| ==> blocks[j] == Some(BlockOf(content, bs, at[j]))
  {
    hide Serves, BlockOf;
    blocks := [];
    while |blocks| < |at|
      invariant |blocks| <= |at| && Serves(o, packed, bs, v, content)
      invariant forall j :: 0 <= j < |blocks| ==> blocks[j] == Some(BlockOf(content, bs, at[j]))
    {
      var b := LoadBlock(o, packed, bs, size, v, content, at[|blocks|]);
      blocks := blocks + [b];
    }
  }
}
