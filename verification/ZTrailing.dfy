/**
 The bytes that follow a compressed inode: alignment padding, the map header,
 and the index array; and their parsing.
 */
module ZTrailing {
  import opened Bytes
  import opened Arith
  import opened Spool
  import opened FileMap
  import opened ZFile
  import opened ZIndex
  import opened CompactWriter

  const HEADER_SIZE := 8
  const FULL_INDEX_EXTRA := 8
  const ADVISE_FULL := 2          // big physical clusters
  const ADVISE_COMPACT := 7       // and compacted-2B indexes
  const FRAGMENT_FLAG := 0x8000_0000_0000_0000

  // ---- placing a file's extents in the image --------------------------------------------

  function Place(base: nat, e: Extent): (r: Extent) { e.(blkOff := base + e.blkOff) }

  function PlaceAll(base: nat, extents: seq<Extent>): (r: seq<Extent>)
    ensures |r| == |extents|
  {
    seq(|extents|, i requires 0 <= i < |extents| => Place(base, extents[i]))
  }

  function FileMapping(bs: nat, base: nat, extents: seq<Extent>, raws: seq<seq<byte>>): (m: Mapping) {
    Mapping(bs, PlaceAll(base, extents), raws)
  }

  lemma {:induction false} FileMappingIs(bs: nat, base: nat, extents: seq<Extent>, raws: seq<seq<byte>>)
    ensures var m := FileMapping(bs, base, extents, raws); m.bs == bs && m.raws == raws && m.Content() == Flatten(raws)
  {
  }

  lemma {:induction false} PlacedReadsBack(image: seq<byte>, bs: nat, base: nat, spool: seq<byte>, e: Extent, raw: seq<byte>)
    requires ReadsBack(bs, spool, e, raw)
    requires bs * base + |spool| <= |image| && image[bs * base..bs * base + |spool|] == spool
    ensures ReadsBack(bs, image, Place(base, e), raw)
  {
    MulSplit(bs, base, e.blkOff);
    MulSplit(bs, e.blkOff, e.blocks);
    MulSplit(bs, base + e.blkOff, e.blocks);
    MulSplit(bs, base, e.blkOff + e.blocks);
    var a, b := Region(bs, spool, e), Region(bs, image, Place(base, e));
    assert a == b by {
      forall j | 0 <= j < |a| ensures a[j] == b[j] {
        assert image[bs * base..bs * base + |spool|][bs * e.blkOff + j] == image[bs * base + (bs * e.blkOff + j)];
      }
    }
  }

  /** Stored extents, placed at the data region's base, map the file in the image. */
  lemma {:induction false} PlacedMapped(image: seq<byte>, bs: nat, base: nat, spool: seq<byte>, blocks: nat,
                                        extents: seq<Extent>, raws: seq<seq<byte>>)
    requires 512 <= bs && StoredAs(bs, spool, extents, raws) && Aligned(bs, raws)
    requires |spool| == bs * blocks && base + blocks < 0x1_0000_0000
    requires bs * base + |spool| <= |image| && image[bs * base..bs * base + |spool|] == spool
    ensures Mapped(image, FileMapping(bs, base, extents, raws))
  {
    hide Region, SkipZeros;
    var m := FileMapping(bs, base, extents, raws);
    forall k | 0 <= k < |raws| ensures ExtentOk(bs, image, m.extents[k], raws[k]) {
      assert ReadsBack(bs, spool, extents[k], raws[k]);
      PlacedReadsBack(image, bs, base, spool, extents[k], raws[k]);
      InSpool(bs, extents[k].blkOff + extents[k].blocks, blocks);
    }
  }

  lemma {:induction false} InSpool(bs: nat, x: nat, blocks: nat)
    requires bs > 0 && bs * x <= bs * blocks
    ensures x <= blocks
  {
    if x > blocks { MulMonotone(bs, blocks + 1, x); }
  }

  // ---- the map header -----------------------------------------------------------------------

  function Pad8(n: nat): (p: nat)
    ensures p < 8 && (n + p) % 8 == 0
  {
    (8 - n % 8) % 8
  }

  function Put64(v: nat): (r: seq<byte>)
    requires v < 0x1_0000_0000_0000_0000
    ensures |r| == 8
  {
    Put32(v % 0x1_0000_0000) + Put32(v / 0x1_0000_0000)
  }

  function Get64(b: seq<byte>): (v: nat)
    requires |b| == 8
  {
    Get32(b, 0) + 0x1_0000_0000 * Get32(b, 4)
  }

  lemma {:induction false} Get64Put64(v: nat)
    requires v < 0x1_0000_0000_0000_0000
    ensures Get64(Put64(v)) == v
  {
    hide Get32, Put32;
    var lo, hi := Put32(v % 0x1_0000_0000), Put32(v / 0x1_0000_0000);
    Get32Put32(v % 0x1_0000_0000, [], hi);
    Get32Put32(v / 0x1_0000_0000, lo, []);
    assert [] + lo + hi == lo + hi + [] == Put64(v);
  }

  /** What a compressed inode's map header says. */
  datatype MapHeader = Whole(fragOff: nat) | IndexArray(compact: bool)

  function PutHeader(h: MapHeader): (r: seq<byte>)
    requires h.Whole? ==> h.fragOff < FRAGMENT_FLAG
    ensures |r| == HEADER_SIZE
  {
    match h
    case Whole(off) => Put64(FRAGMENT_FLAG + off)
    case IndexArray(compact) => [0, 0, 0, 0] + Put16(if compact then ADVISE_COMPACT else ADVISE_FULL) + [0, 0]
  }

  /** Reads the header of an inode whose layout says whether indexes are compacted;
      None when the header asks for something unsupported. */
  function GetHeader(b: seq<byte>, compact: bool): (r: Option<MapHeader>)
    requires |b| == HEADER_SIZE
  {
    var raw := Get64(b);
    if raw >= FRAGMENT_FLAG then Some(Whole(raw - FRAGMENT_FLAG))
    else if b[6] % 16 != 0 || b[7] % 16 != 0 then None
    else if compact && Get16(b, 4) % 8 != ADVISE_COMPACT then None
    else Some(IndexArray(compact))
  }

  lemma {:induction false} HeaderRoundTrip(h: MapHeader, compact: bool)
    requires match h case Whole(off) => off < FRAGMENT_FLAG case IndexArray(c) => c == compact
    ensures GetHeader(PutHeader(h), compact) == Some(h)
  {
    match h
    case Whole(off) => Get64Put64(FRAGMENT_FLAG + off);
    case IndexArray(c) =>
      var advise := if compact then ADVISE_COMPACT else ADVISE_FULL;
      Get16Put16(advise, [0, 0, 0, 0], [0, 0]);
  }

  // ---- the whole trailing area --------------------------------------------------------------

  /** The compressed layout of a file: inside the packed inode, or its own extents. */
  datatype ZInfo = Fragment(fragOff: nat) | Extents(mapping: Mapping)

  /** Whether a file may use implicit-address indexes. */
  predicate CanCompact(z: ZInfo) {
    match z
    case Fragment(off) => off <= 0xFFFF_FFFF
    case Extents(m) => m.bs <= 4096 && |m.extents| > 0 && forall k :: 0 < k < |m.extents| ==> Follows(m.extents, k)
  }

  /** Placement keeps the extents contiguous, or not. */
  lemma {:induction false} PlaceKeepsCompact(bs: nat, base: nat, extents: seq<Extent>, raws: seq<seq<byte>>)
    ensures CanCompact(Extents(FileMapping(bs, base, extents, raws))) == CanCompact(Extents(FileMapping(bs, 0, extents, raws)))
  {
    var a, b := PlaceAll(base, extents), PlaceAll(0, extents);
    forall k | 0 < k < |extents| ensures Follows(a, k) == Follows(b, k) {
    }
  }

  ghost predicate Writable(z: ZInfo, compact: bool) {
    match z
    case Fragment(off) => off < FRAGMENT_FLAG
    case Extents(m) => Indexable(m) && (compact ==> CanCompact(z))
  }

  /** Where the index array starts, when the map header must start at an 8-byte
      boundary at or after headerEnd bytes into an inode at nidOff. */
  function IndexStart(nidOff: nat, headerEnd: nat, compact: bool): (r: nat) {
    nidOff + headerEnd + Pad8(headerEnd) + HEADER_SIZE + (if compact then 0 else FULL_INDEX_EXTRA)
  }

  function TrailingSize(fragment: bool, compact: bool, nidOff: nat, headerEnd: nat, size: nat, bs: nat): (r: nat)
    requires bs > 0
  {
    CeilNat(size, bs);
    var nIdx := CeilDiv(size, bs);
    Pad8(headerEnd) + HEADER_SIZE +
    (if fragment then 0
     else if compact then CompactIndexSize(IndexStart(nidOff, headerEnd, true), nIdx)
     else FULL_INDEX_EXTRA + 8 * nIdx)
  }

  /** out holds the header and the indexes of z where a reader will look. */
  ghost predicate TrailingHolds(z: ZInfo, compact: bool, nidOff: nat, headerEnd: nat, out: seq<byte>, entries: seq<IndexEntry>)
    requires Writable(z, compact)
  {
    var at := Pad8(headerEnd) + HEADER_SIZE;
    |out| >= at && Slice(out, Pad8(headerEnd), HEADER_SIZE) == PutHeader(HeaderOf(z, compact))
    && match z
       case Fragment(_) => true
       case Extents(m) =>
         Lists(m, !compact, |m.extents|, entries)
         && (if compact then |m.extents| > 0 && ArrayHolds(m, entries, IndexStart(nidOff, headerEnd, true), out[at..])
             else (forall e <- entries :: Storable(e)) && out[at..] == Zeros(FULL_INDEX_EXTRA) + PutEntries(entries))
  }

  ghost predicate ArrayHolds(m: Mapping, entries: seq<IndexEntry>, idxStart: nat, buf: seq<byte>)
    requires |m.extents| > 0 && |entries| == Start(m.extents, |m.extents|)
  {
    forall lcn :: 0 <= lcn < |entries| ==> PackWritten(m, entries, idxStart, buf, lcn)
  }

  function HeaderOf(z: ZInfo, compact: bool): (h: MapHeader) {
    match z case Fragment(off) => Whole(off) case Extents(_) => IndexArray(compact)
  }

  lemma {:induction false} CompactEntries(m: Mapping, entries: seq<IndexEntry>)
    requires Writable(Extents(m), true) && Lists(m, false, |m.extents|, entries)
    ensures Compactable(m) && forall e <- entries :: Packable(e)
  {
    forall n | 0 <= n < |entries| ensures Packable(entries[n]) {
      var k, i := Locate(m.extents, |m.extents|, n);
      assert InRange(m.extents, k, i, |entries|);
      assert m.extents[k] in m.extents;
      if !m.extents[k].plain { NonHeadEntry(m.extents[k], i); }
    }
  }

  /** Writes the trailing area; it is exactly as long as planned. */
  method WriteTrailing(z: ZInfo, compact: bool, nidOff: nat, headerEnd: nat, ghost size: nat, ghost bs: nat)
    returns (out: seq<byte>, ghost entries: seq<IndexEntry>)
    requires Writable(z, compact) && nidOff % 8 == 0 && bs > 0
    requires z.Extents? ==> z.mapping.bs == bs && |z.mapping.Content()| == size
    ensures |out| == TrailingSize(z.Fragment?, compact, nidOff, headerEnd, size, bs)
    ensures TrailingHolds(z, compact, nidOff, headerEnd, out, entries)
  {
    hide PackWritten, Lists, CompactIndexSize, PutHeader, PutEntries, Writable, Slice, ArrayHolds, Storable;
    WritablePut(z, compact);
    entries := [];
    var front := Zeros(Pad8(headerEnd)) + PutHeader(HeaderOf(z, compact));
    SliceEnd(Zeros(Pad8(headerEnd)), PutHeader(HeaderOf(z, compact)));
    match z {
      case Fragment(_) => out := front;
      case Extents(m) =>
        var body;
        body, entries := WriteIndexes(m, compact, IndexStart(nidOff, headerEnd, true));
        out := front + body;
        SlicePrefix(front, body, Pad8(headerEnd), HEADER_SIZE);
        assert out[|front|..] == body;
    }
  }

  lemma {:induction false} WritablePut(z: ZInfo, compact: bool)
    requires Writable(z, compact)
    ensures HeaderOf(z, compact).Whole? ==> HeaderOf(z, compact).fragOff < FRAGMENT_FLAG
    ensures z.Extents? ==> z.mapping.bs > 0
  {
  }

  lemma {:induction false} SliceEnd(a: seq<byte>, b: seq<byte>)
    ensures Slice(a + b, |a|, |b|) == b
  {
  }

  method WriteIndexes(m: Mapping, compact: bool, idxStart: nat) returns (body: seq<byte>, ghost entries: seq<IndexEntry>)
    requires Writable(Extents(m), compact) && idxStart % 8 == 0
    ensures Lists(m, !compact, |m.extents|, entries) && |entries| == CeilDiv(|m.Content()|, m.bs)
    ensures compact ==> |m.extents| > 0 && |body| == CompactIndexSize(idxStart, |entries|) && ArrayHolds(m, entries, idxStart, body)
    ensures !compact ==> (forall e <- entries :: Storable(e)) && body == Zeros(FULL_INDEX_EXTRA) + PutEntries(entries)
  {
    hide PackWritten;
    var list := IndexEntries(m, !compact);
    entries := list;
    if compact {
      CompactEntries(m, list);
      body := WriteCompactIndexes(m, list, idxStart);
    } else {
      AllStorable(m, true, list);
      body := Zeros(FULL_INDEX_EXTRA) + PutEntries(list);
    }
  }
}
