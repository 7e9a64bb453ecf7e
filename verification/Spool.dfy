/**
 The compressed-data region: packed spans written block-aligned, one after
 another, with identical spans stored once.  Every extent handed out keeps
 reading back to the span it was handed out for.
 */
module Spool {
  import opened Bytes
  import opened Arith
  import opened Lz4Format
  import opened SpanPacker

  /** lclusters logical blocks held in blocks physical blocks from blkOff on; a
      plain extent stores them raw, one to one. */
  datatype Extent = Extent(lclusters: nat, blocks: nat, blkOff: nat, plain: bool)

  /** A content hash, taken to be injective. */
  datatype Digest = Digest(preimage: seq<byte>)

  datatype Stats = Stats(references: nat, stored: nat, compressed: nat, rawExtents: nat,
                         dedupeReferences: nat, dedupeLogicalBytes: nat, dedupePhysicalBytes: nat,
                         encodedBytes: nat, rawBytes: nat, physicalBytes: nat, paddingBytes: nat,
                         boundaryExtents: nat, boundarySlackBytes: nat)

  const NO_STATS := Stats(0, 0, 0, 0, 0, 0, 0, 0, 0, 0, 0, 0, 0)

  // ---- reading an extent back ---------------------------------------------------

  function Zeros(n: nat): (r: seq<byte>)
    ensures |r| == n && forall i :: 0 <= i < n ==> r[i] == 0
  {
    seq(n, _ => 0)
  }

  /** Compressed data is right-aligned in its blocks; readers skip the zeros. */
  function SkipZeros(b: seq<byte>): (r: seq<byte>) {
    if b != [] && b[0] == 0 then SkipZeros(b[1..]) else b
  }

  lemma {:induction false} SkipPadding(pad: nat, b: seq<byte>)
    requires b == [] || b[0] != 0
    ensures SkipZeros(Zeros(pad) + b) == b
    decreases pad
  {
    if pad == 0 {
      assert Zeros(0) + b == b;
    } else {
      var all := Zeros(pad) + b;
      assert all[1..] == Zeros(pad - 1) + b;
      SkipPadding(pad - 1, b);
    }
  }

  /** The physical blocks of an extent. */
  function Region(bs: nat, spool: seq<byte>, e: Extent): (r: seq<byte>)
    requires bs * (e.blkOff + e.blocks) <= |spool|
    ensures |r| == bs * e.blocks
  {
    MulSplit(bs, e.blkOff, e.blocks);
    spool[bs * e.blkOff..bs * (e.blkOff + e.blocks)]
  }

  lemma {:induction false} MulSplit(b: nat, x: nat, y: nat)
    ensures b * (x + y) == b * x + b * y && 0 <= b * x && 0 <= b * y
  {
  }

  /** The extent has the shape the indexes can describe and holds raw. */
  ghost predicate ReadsBack(bs: nat, spool: seq<byte>, e: Extent, raw: seq<byte>) {
    bs > 0 && raw != [] && e.lclusters == CeilDiv(|raw|, bs) && bs * (e.blkOff + e.blocks) <= |spool|
    && (if e.plain then e.blocks == e.lclusters && raw <= Region(bs, spool, e)
        else Compressed(bs, e, raw) && Decode(SkipZeros(Region(bs, spool, e))) == Some(raw))
  }

  /** Compression saves a block and stays within the format's cluster bounds. */
  ghost predicate Compressed(bs: nat, e: Extent, raw: seq<byte>) {
    1 <= e.blocks < e.lclusters && e.blocks < CBLKCNT && bs * e.blocks <= MAX_PCLUSTER && |raw| <= MAX_EXTENT
  }

  /** Appending to the spool disturbs no extent. */
  lemma {:induction false} ReadsBackStable(bs: nat, spool: seq<byte>, more: seq<byte>, e: Extent, raw: seq<byte>)
    requires ReadsBack(bs, spool, e, raw)
    ensures ReadsBack(bs, spool + more, e, raw)
  {
    MulSplit(bs, e.blkOff, e.blocks);
    assert Region(bs, spool + more, e) == Region(bs, spool, e);
  }

  // ---- what one store appends -----------------------------------------------------

  /** The blocks appended for a span: padding before an encoding, after raw data. */
  function StoredBlocks(bs: nat, s: PackedSpan): (r: seq<byte>)
    requires bs > 0
  {
    if s.comp != [] then CeilBounds(|s.comp|, bs); Zeros(bs * CeilDiv(|s.comp|, bs) - |s.comp|) + s.comp
    else CeilBounds(|s.raw|, bs); s.raw + Zeros(bs * CeilDiv(|s.raw|, bs) - |s.raw|)
  }

  lemma {:induction false} StoredSize(bs: nat, s: PackedSpan)
    requires bs > 0
    ensures |StoredBlocks(bs, s)| >= |s.comp| && (s.comp == [] ==> |StoredBlocks(bs, s)| >= |s.raw|)
  {
    hide CeilDiv;
  }

  function NewExtent(bs: nat, s: PackedSpan, blkOff: nat): (e: Extent)
    requires bs > 0
  {
    CeilNat(|s.raw|, bs);
    CeilNat(|s.comp|, bs);
    var lclusters := CeilDiv(|s.raw|, bs);
    Extent(lclusters, if s.comp != [] then CeilDiv(|s.comp|, bs) else lclusters, blkOff, s.comp == [])
  }

  lemma {:induction false} CeilNat(n: nat, bs: nat)
    requires bs > 0
    ensures CeilDiv(n, bs) >= 0 && (n > 0 ==> CeilDiv(n, bs) >= 1)
  {
    CeilBounds(n, bs);
    MulBounds(bs, CeilDiv(n, bs));
  }

  /** An encoding that saves a block's bytes saves a block. */
  lemma {:induction false} FewerBlocks(bs: nat, profile: Profile, span: nat, compLen: nat)
    requires profile.Valid(bs) && Fits(bs, profile.pclusterSize, span, compLen)
    ensures 1 <= CeilDiv(compLen, bs) < CeilDiv(span, bs)
    ensures bs * CeilDiv(compLen, bs) <= profile.pclusterSize && CeilDiv(compLen, bs) < CBLKCNT
  {
    CeilNat(compLen, bs);
    var budget := profile.pclusterSize / bs;
    DivExact(profile.pclusterSize, bs);
    CeilAtMost(compLen, bs, budget);
    MulMonotone(bs, CeilDiv(compLen, bs), budget);
    if budget >= CBLKCNT { MulMonotone(bs, CBLKCNT, budget); }
    CeilBounds(span, bs);
    assert bs * (CeilDiv(span, bs) - 1) == bs * CeilDiv(span, bs) - bs;
    CeilAtMost(compLen, bs, CeilDiv(span, bs) - 1);
  }

  lemma {:induction false} StoreReadsBack(bs: nat, profile: Profile, spool: seq<byte>, blocks: nat, s: PackedSpan)
    requires profile.Valid(bs) && |spool| == bs * blocks && SpanOk(bs, profile, s)
    ensures var e := NewExtent(bs, s, blocks);
      ReadsBack(bs, spool + StoredBlocks(bs, s), e, s.raw) && |StoredBlocks(bs, s)| == bs * e.blocks
  {
    var e := NewExtent(bs, s, blocks);
    MulSplit(bs, blocks, e.blocks);
    CeilBounds(|s.raw|, bs);
    assert Region(bs, spool + StoredBlocks(bs, s), e) == StoredBlocks(bs, s);
    if s.comp != [] {
      FewerBlocks(bs, profile, |s.raw|, |s.comp|);
      FirstByteNonZero(s.comp);
      CeilBounds(|s.comp|, bs);
      SkipPadding(bs * CeilDiv(|s.comp|, bs) - |s.comp|, s.comp);
    }
  }

  // ---- storing as a function --------------------------------------------------------

  datatype SpoolState = SpoolState(spool: seq<byte>, compBlocks: nat, dedupe: map<Digest, Extent>)

  /** Storing one span: an identical earlier span is shared, any other appended. */
  function PutSpan(bs: nat, dedupes: bool, st: SpoolState, s: PackedSpan): (r: (SpoolState, Extent))
    requires bs > 0
  {
    if dedupes && Digest(s.raw) in st.dedupe then (st, st.dedupe[Digest(s.raw)])
    else
      var e := NewExtent(bs, s, st.compBlocks);
      (SpoolState(st.spool + StoredBlocks(bs, s), st.compBlocks + e.blocks,
                  if dedupes then st.dedupe[Digest(s.raw) := e] else st.dedupe), e)
  }

  /** Storing spans one after another. */
  function PutAll(bs: nat, dedupes: bool, st: SpoolState, spans: seq<PackedSpan>): (r: (SpoolState, seq<Extent>))
    requires bs > 0
    ensures |r.1| == |spans|
  {
    if spans == [] then (st, [])
    else
      var (before, extents) := PutAll(bs, dedupes, st, spans[..|spans| - 1]);
      var (after, e) := PutSpan(bs, dedupes, before, spans[|spans| - 1]);
      (after, extents + [e])
  }

  lemma {:induction false} PutAllSnoc(bs: nat, dedupes: bool, st: SpoolState, spans: seq<PackedSpan>, s: PackedSpan)
    requires bs > 0
    ensures var (before, extents) := PutAll(bs, dedupes, st, spans);
      var (after, e) := PutSpan(bs, dedupes, before, s);
      PutAll(bs, dedupes, st, spans + [s]) == (after, extents + [e])
  {
    assert (spans + [s])[..|spans|] == spans;
  }

  /** Storing a list in two goes. */
  lemma {:induction false} PutAllAppend(bs: nat, dedupes: bool, st: SpoolState, a: seq<PackedSpan>, b: seq<PackedSpan>)
    requires bs > 0
    ensures var (mid, front) := PutAll(bs, dedupes, st, a);
      var (end, back) := PutAll(bs, dedupes, mid, b);
      PutAll(bs, dedupes, st, a + b) == (end, front + back)
    decreases |b|
  {
    hide PutSpan;
    if b == [] {
      assert a + b == a;
      assert PutAll(bs, dedupes, st, a).1 + [] == PutAll(bs, dedupes, st, a).1;
    } else {
      var last := |b| - 1;
      PutAllAppend(bs, dedupes, st, a, b[..last]);
      PutAllSnoc(bs, dedupes, st, a + b[..last], b[last]);
      assert a + b == (a + b[..last]) + [b[last]];
      var (mid, front) := PutAll(bs, dedupes, st, a);
      PutAllSnoc(bs, dedupes, mid, b[..last], b[last]);
      assert b == b[..last] + [b[last]];
      var (end, back) := PutAll(bs, dedupes, mid, b[..last]);
      var e := PutSpan(bs, dedupes, end, b[last]).1;
      assert front + (back + [e]) == (front + back) + [e];
    }
  }

  /** Spans stored before are in the dedupe map, with the extents they got. */
  lemma {:induction false} Remembered(bs: nat, st: SpoolState, spans: seq<PackedSpan>, k: nat)
    requires bs > 0 && k < |spans|
    ensures var (after, extents) := PutAll(bs, true, st, spans);
      Digest(spans[k].raw) in after.dedupe && after.dedupe[Digest(spans[k].raw)] == extents[k]
    decreases |spans|
  {
    hide NewExtent, StoredBlocks;
    var last := |spans| - 1;
    if k < last { Remembered(bs, st, spans[..last], k); }
  }

  /** With dedupe on, storing a span whose bytes were stored before, however they were
      encoded, returns the extent they got and leaves the spool as it was; with dedupe
      off every span is appended. */
  lemma {:induction false} StoredOnce(bs: nat, st: SpoolState, spans: seq<PackedSpan>, k: nat, s: PackedSpan)
    requires bs > 0 && k < |spans| && s.raw == spans[k].raw
    ensures var (after, extents) := PutAll(bs, true, st, spans); PutSpan(bs, true, after, s) == (after, extents[k])
    ensures PutSpan(bs, false, st, s).0.spool == st.spool + StoredBlocks(bs, s) && PutSpan(bs, false, st, s).1.blkOff == st.compBlocks
  {
    hide PutAll;
    Remembered(bs, st, spans, k);
  }

  // ---- what the counters count ----------------------------------------------------

  function Sum(spans: seq<PackedSpan>, f: PackedSpan -> nat): (n: nat) {
    if spans == [] then 0 else Sum(spans[..|spans| - 1], f) + f(spans[|spans| - 1])
  }

  lemma {:induction false} SumSnoc(spans: seq<PackedSpan>, s: PackedSpan, f: PackedSpan -> nat)
    ensures Sum(spans + [s], f) == Sum(spans, f) + f(s)
  {
    assert (spans + [s])[..|spans|] == spans;
  }

  function EncodedOf(s: PackedSpan): (n: nat) { |s.comp| }

  function RawOf(s: PackedSpan): (n: nat) { if s.comp == [] then |s.raw| else 0 }

  function CompressedOne(s: PackedSpan): (n: nat) { if s.comp != [] then 1 else 0 }

  function RawOne(s: PackedSpan): (n: nat) { if s.comp == [] then 1 else 0 }

  function BoundaryOne(s: PackedSpan): (n: nat) { if s.segmentEnd then 1 else 0 }

  class Store {
    const blockSize: nat
    const dedupes: bool
    var spool: seq<byte>
    var compBlocks: nat
    var dedupe: map<Digest, Extent>
    var stats: Stats
    ghost var handedOut: seq<(Extent, seq<byte>)>
    ghost var appended: seq<PackedSpan>   // the spans that were not shared

    ghost predicate Valid()
      reads this
    {
      blockSize > 0 && |spool| == blockSize * compBlocks && Readable() && Balanced() && Counted()
    }

    /** Each counter counts what it says, over the spans that were stored. */
    ghost predicate Counted()
      reads this`stats, this`appended
    {
      stats.stored == |appended| && stats.encodedBytes == Sum(appended, EncodedOf) && stats.rawBytes == Sum(appended, RawOf)
      && stats.compressed == Sum(appended, CompressedOne) && stats.rawExtents == Sum(appended, RawOne)
      && stats.boundaryExtents == Sum(appended, BoundaryOne)
    }

    /** Physical bytes are payload plus padding, and every reference was either
        stored or satisfied by an earlier store. */
    ghost predicate Balanced()
      reads this
    {
      stats.physicalBytes == blockSize * compBlocks
      && stats.physicalBytes == stats.encodedBytes + stats.rawBytes + stats.paddingBytes
      && stats.references == stats.stored + stats.dedupeReferences == |handedOut|
      && stats.stored == stats.compressed + stats.rawExtents
      && stats.boundarySlackBytes <= stats.paddingBytes
    }

    constructor (blockSize: nat, dedupes: bool)
      requires blockSize > 0
      ensures Valid() && spool == [] && handedOut == [] && this.blockSize == blockSize && this.dedupes == dedupes
    {
      this.blockSize, this.dedupes := blockSize, dedupes;
      spool, compBlocks, dedupe, stats, handedOut, appended := [], 0, map[], NO_STATS, [], [];
    }

    function State(): (st: SpoolState)
      reads this
    {
      SpoolState(spool, compBlocks, dedupe)
    }

    /** Stores one span, or reuses the extent of an identical earlier one. */
    method StoreSpan(ghost profile: Profile, s: PackedSpan) returns (e: Extent)
      requires Valid() && profile.Valid(blockSize) && SpanOk(blockSize, profile, s)
      modifies this
      ensures Valid() && ReadsBack(blockSize, spool, e, s.raw)
      ensures handedOut == old(handedOut) + [(e, s.raw)]
      ensures (State(), e) == PutSpan(blockSize, dedupes, old(State()), s) && old(spool) <= spool
      ensures appended == if dedupes && Digest(s.raw) in old(dedupe) then old(appended) else old(appended) + [s]
    {
      hide ReadsBack, StoredBlocks, NewExtent, SpanOk, Sum;
      stats := stats.(references := stats.references + 1);
      if dedupes && Digest(s.raw) in dedupe {
        e := dedupe[Digest(s.raw)];
        stats := stats.(dedupeReferences := stats.dedupeReferences + 1,
                        dedupeLogicalBytes := stats.dedupeLogicalBytes + |s.raw|,
                        dedupePhysicalBytes := stats.dedupePhysicalBytes + blockSize * e.blocks);
        handedOut := handedOut + [(e, s.raw)];
        return;
      }
      e := AppendSpan(profile, s);
      if dedupes { dedupe := dedupe[Digest(s.raw) := e]; }
      handedOut := handedOut + [(e, s.raw)];
    }

    /** Everything handed out so far reads back. */
    ghost predicate Readable()
      reads this
    {
      (forall d <- dedupe :: ReadsBack(blockSize, spool, dedupe[d], d.preimage))
      && (forall h <- handedOut :: ReadsBack(blockSize, spool, h.0, h.1))
    }

    /** Appends a span's blocks; what was readable stays so. */
    method AppendSpan(ghost profile: Profile, s: PackedSpan) returns (e: Extent)
      requires blockSize > 0 && |spool| == blockSize * compBlocks && Readable() && Counted()
      requires profile.Valid(blockSize) && SpanOk(blockSize, profile, s)
      modifies this`spool, this`compBlocks, this`stats, this`appended
      ensures Counted() && appended == old(appended) + [s]
      ensures Readable() && ReadsBack(blockSize, spool, e, s.raw) && |spool| == blockSize * compBlocks
      ensures e == NewExtent(blockSize, s, old(compBlocks))
      ensures spool == old(spool) + StoredBlocks(blockSize, s) && compBlocks == old(compBlocks) + e.blocks
      ensures stats.references == old(stats.references) && stats.dedupeReferences == old(stats.dedupeReferences)
      ensures stats.stored == old(stats.stored) + 1
      ensures stats.compressed + stats.rawExtents == old(stats.compressed + stats.rawExtents) + 1
      ensures stats.physicalBytes == old(stats.physicalBytes) + blockSize * e.blocks
      ensures stats.encodedBytes + stats.rawBytes + stats.paddingBytes
           == old(stats.encodedBytes + stats.rawBytes + stats.paddingBytes) + blockSize * e.blocks
      ensures stats.paddingBytes - old(stats.paddingBytes) >= stats.boundarySlackBytes - old(stats.boundarySlackBytes)
    {
      hide ReadsBack, NewExtent, Counted, StoredBlocks, SpanOk;
      e := NewExtent(blockSize, s, compBlocks);
      StoreReadsBack(blockSize, profile, spool, compBlocks, s);
      var blocks := StoredBlocks(blockSize, s);
      StoredSize(blockSize, s);
      CountStored(s, |blocks|);
      MulSplit(blockSize, compBlocks, e.blocks);
      StaysReadable(blocks);
      spool := spool + blocks;
      compBlocks := compBlocks + e.blocks;
    }

    lemma {:induction false} StaysReadable(more: seq<byte>)
      requires Readable()
      ensures forall d <- dedupe :: ReadsBack(blockSize, spool + more, dedupe[d], d.preimage)
      ensures forall h <- handedOut :: ReadsBack(blockSize, spool + more, h.0, h.1)
    {
      hide ReadsBack;
      forall d <- dedupe ensures ReadsBack(blockSize, spool + more, dedupe[d], d.preimage) {
        ReadsBackStable(blockSize, spool, more, dedupe[d], d.preimage);
      }
      forall h <- handedOut ensures ReadsBack(blockSize, spool + more, h.0, h.1) {
        ReadsBackStable(blockSize, spool, more, h.0, h.1);
      }
    }

    /** Counts one stored span. */
    method CountStored(s: PackedSpan, physical: nat)
      requires physical >= |s.comp| && (s.comp == [] ==> physical >= |s.raw|) && Counted()
      modifies this`stats, this`appended
      ensures Counted() && appended == old(appended) + [s]
      ensures stats.references == old(stats.references) && stats.dedupeReferences == old(stats.dedupeReferences)
      ensures stats.stored == old(stats.stored) + 1
      ensures stats.compressed + stats.rawExtents == old(stats.compressed + stats.rawExtents) + 1
      ensures stats.physicalBytes == old(stats.physicalBytes) + physical
      ensures stats.encodedBytes + stats.rawBytes + stats.paddingBytes
           == old(stats.encodedBytes + stats.rawBytes + stats.paddingBytes) + physical
      ensures stats.paddingBytes >= old(stats.paddingBytes)
      ensures stats.boundarySlackBytes - old(stats.boundarySlackBytes)
           == if s.segmentEnd then stats.paddingBytes - old(stats.paddingBytes) else 0
    {
      hide Sum;
      SumSnoc(appended, s, EncodedOf);
      SumSnoc(appended, s, RawOf);
      SumSnoc(appended, s, CompressedOne);
      SumSnoc(appended, s, RawOne);
      SumSnoc(appended, s, BoundaryOne);
      appended := appended + [s];
      var payload := if s.comp != [] then |s.comp| else |s.raw|;
      if s.comp != [] {
        stats := stats.(compressed := stats.compressed + 1, encodedBytes := stats.encodedBytes + payload);
      } else {
        stats := stats.(rawExtents := stats.rawExtents + 1, rawBytes := stats.rawBytes + payload);
      }
      stats := stats.(stored := stats.stored + 1, physicalBytes := stats.physicalBytes + physical,
                      paddingBytes := stats.paddingBytes + physical - payload);
      if s.segmentEnd {
        stats := stats.(boundaryExtents := stats.boundaryExtents + 1,
                        boundarySlackBytes := stats.boundarySlackBytes + physical - payload);
      }
    }
  }
}
