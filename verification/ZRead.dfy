/**
 Reading a compressed inode: walk the index back to the extent's head, size the
 extent by walking forward, skip the padding, decode, and remember the extent.
 */
module ZRead {
  import opened Bytes
  import opened Arith
  import opened Lz4Format
  import opened SpanPacker
  import opened Spool
  import opened FileMap
  import opened ZIndex
  import opened CompactIndex

  /** The length of an extent follows from its clusters and the file's size. */
  lemma {:induction false} SizeOfExtent(image: seq<byte>, m: Mapping, k: nat)
    requires Mapped(image, m) && k < |m.extents|
    ensures var head, all := m.bs * Start(m.extents, k), m.bs * m.extents[k].lclusters;
      |m.raws[k]| == if head + all > |m.Content()| then |m.Content()| - head else all
    ensures k == |m.extents| - 1 && TailOfs(m) != 0 ==>
      |m.raws[k]| == m.bs * (m.extents[k].lclusters - 1) + TailOfs(m)
  {
    hide ExtentOk, Flatten;
    ExtentShape(image, m, k);
    CeilBounds(|m.raws[k]|, m.bs);
    if k < |m.raws| - 1 {
      StartBytes(image, m, k);
      FlattenAt(m.raws, k);
    } else {
      ContentSize(image, m);
      MulMod(Start(m.extents, k), m.bs);
      SumMod(m.bs * Start(m.extents, k), |m.raws[k]|, m.bs);
      if TailOfs(m) != 0 { TailOfRaw(|m.raws[k]|, m.bs); }
    }
  }

  lemma {:induction false} TailOfRaw(n: nat, b: nat)
    requires b > 0 && n % b != 0
    ensures n == b * (CeilDiv(n, b) - 1) + n % b
  {
    assert n == b * (n / b) + n % b;
    assert b * (n / b + 1) == b * (n / b) + b;
    CeilUnique(n, b, n / b + 1);
  }

  /** A plain entry without an address marks where the file ends. */
  predicate IsBoundary(e: IndexEntry) { e.typ % 4 == PLAIN && e.u == 0 && e.clusterofs != 0 }

  lemma {:induction false} NextInRange(image: seq<byte>, m: Mapping, k: nat, j: nat)
    requires Mapped(image, m) && k < |m.extents| && 0 < j <= m.extents[k].lclusters
    ensures var n := Start(m.extents, |m.extents|);
      Start(m.extents, k) + j <= n && (Start(m.extents, k) + j == n ==> j == m.extents[k].lclusters)
  {
    hide ExtentOk;
    StartMonotone(m.extents, k + 1, |m.extents|);
  }

  lemma {:induction false} CompressedShape(image: seq<byte>, m: Mapping, k: nat)
    requires Mapped(image, m) && k < |m.extents| && !m.extents[k].plain
    ensures 1 <= m.extents[k].blocks < m.extents[k].lclusters && m.extents[k].blocks < CBLKCNT
    ensures m.bs * m.extents[k].blocks <= MAX_PCLUSTER && 0 < |m.raws[k]| <= MAX_EXTENT
    ensures m.bs * (m.extents[k].blkOff + m.extents[k].blocks) <= |image|
    ensures Decode(SkipZeros(Region(m.bs, image, m.extents[k]))) == Some(m.raws[k])
  {
    assert ExtentOk(m.bs, image, m.extents[k], m.raws[k]);
  }

  lemma {:induction false} StartInjective(image: seq<byte>, m: Mapping, j: nat, k: nat)
    requires Mapped(image, m) && j < |m.extents| && k < |m.extents| && Start(m.extents, j) == Start(m.extents, k)
    ensures j == k
  {
    hide ExtentOk;
    var lo, hi := Min(j, k), Max(j, k);
    if lo < hi {
      ExtentShape(image, m, lo);
      CeilNat(|m.raws[lo]|, m.bs);
      StartMonotone(m.extents, lo + 1, hi);
    }
  }

  /** The decoded size: up to the marker, or whole clusters cut at the file's end. */
  function ExtentSize(bs: nat, size: nat, head: nat, lclusters: nat, tail: nat): (n: int) {
    if tail != 0 then bs * lclusters + tail
    else if bs * head + bs * lclusters > size then size - bs * head
    else bs * lclusters
  }

  /** The extent's last index is the end marker. */
  predicate Marked(m: Mapping, eof: bool, k: nat)
    requires m.bs > 0 && k < |m.extents|
  {
    eof && m.extents[k].lclusters > 0 && IsMarker(m, k, m.extents[k].lclusters - 1)
  }

  /** The computed size is right. */
  lemma {:induction false} ExtentSizeExact(image: seq<byte>, m: Mapping, eof: bool, k: nat)
    requires Mapped(image, m) && k < |m.extents| && m.bs <= MAX_BLOCK
    ensures ExtentSize(m.bs, |m.Content()|, Start(m.extents, k),
                       m.extents[k].lclusters - (if Marked(m, eof, k) then 1 else 0),
                       if Marked(m, eof, k) then MarkerOfs(m) else 0) == |m.raws[k]|
  {
    hide ExtentOk, Flatten, MarkerOfs, TailOfs;
    MarkerExact(m);
    SizeOfExtent(image, m, k);
  }

  lemma {:induction false} RegionSlice(bs: nat, image: seq<byte>, e: Extent)
    requires bs * (e.blkOff + e.blocks) <= |image|
    ensures Slice(image, bs * e.blkOff, bs * e.blocks) == Region(bs, image, e)
  {
    MulSplit(bs, e.blkOff, e.blocks);
  }

  lemma {:induction false} DecodeEmpty()
    ensures Decode([]) == None
  {
  }

  /** How many zero bytes lead b. */
  method CountZeros(b: seq<byte>) returns (i: nat)
    ensures i <= |b| && b[i..] == SkipZeros(b)
  {
    i := 0;
    while i < |b| && b[i] == 0
      invariant i <= |b| && SkipZeros(b[i..]) == SkipZeros(b)
    {
      assert b[i..][1..] == b[i + 1..];
      i := i + 1;
    }
  }

  /** The right-aligned block in a region, decoded; None when it is short, empty,
      malformed, or not of the expected size. */
  function RegionData(image: seq<byte>, at: nat, len: nat, want: int): (r: Option<seq<byte>>) {
    var comp := Slice(image, at, len);
    if |comp| == len && Decode(SkipZeros(comp)).Some? && |Decode(SkipZeros(comp)).value| == want
    then Decode(SkipZeros(comp)) else None
  }

  method DecodeRegion(image: seq<byte>, at: nat, len: nat, want: int) returns (r: Option<seq<byte>>)
    ensures r == RegionData(image, at, len, want)
  {
    var comp := Slice(image, at, len);
    hide Decode, Slice, SkipZeros;
    if |comp| != len { return None; }
    var i := CountZeros(comp);
    if i == |comp| { DecodeEmpty(); return None; }
    r := Decode(comp[i..]);
    if r.Some? && |r.value| != want { return None; }
  }

  /** In every file whose writer stored an extent in as many blocks as the count's flag
      stands for, the index says that the extent has no blocks at all, and whatever the
      image holds it cannot be decoded. */
  lemma {:induction false} BigExtentLost(image: seq<byte>, m: Mapping, eof: bool, entries: seq<IndexEntry>, k: nat, want: int)
    requires m.bs > 0 && Lists(m, eof, |m.extents|, entries) && k < |m.extents| && !m.extents[k].plain
    requires m.extents[k].blocks == CBLKCNT && 1 < m.extents[k].lclusters && !(eof && IsMarker(m, k, 1))
    ensures Start(m.extents, k) + 1 < |entries|
    ensures var e := entries[Start(m.extents, k) + 1]; e.typ == NONHEAD && HasCount(e.u % 65536) && WithoutCount(e.u % 65536) == 0
    ensures var e := entries[Start(m.extents, k) + 1];
      RegionData(image, m.bs * m.extents[k].blkOff, m.bs * WithoutCount(e.u % 65536), want) == None
  {
    hide Decode, Start;
    assert InRange(m.extents, k, 1, |entries|) && entries[Start(m.extents, k) + 1] == EntryFor(m, eof, k, 1);
    DecodeEmpty();
    assert m.bs * 0 == 0;
  }

  lemma {:induction false} PlainBlock(image: seq<byte>, m: Mapping, k: nat, i: nat, n: nat)
    requires Mapped(image, m) && k < |m.extents| && i < m.extents[k].lclusters && m.extents[k].plain
    requires m.bs * i + n <= |m.raws[k]|
    ensures Slice(image, m.bs * (m.extents[k].blkOff + i), n) == Slice(m.raws[k], m.bs * i, n)
    ensures |Slice(m.raws[k], m.bs * i, n)| == n
  {
    var e, raw := m.extents[k], m.raws[k];
    assert ExtentOk(m.bs, image, e, raw);
    MulSplit(m.bs, e.blkOff, i);
    MulSplit(m.bs, e.blkOff, e.blocks);
    var at := m.bs * e.blkOff;
    assert raw == Region(m.bs, image, e)[..|raw|] == image[at..at + |raw|];
    SliceOfSlice(image, at, raw, m.bs * i, n);
  }

  class Inode {
    const image: seq<byte>
    const bs: nat
    const size: nat
    const idxStart: nat
    const nIdx: nat
    const compact: bool
    // the one decompressed extent that is remembered
    var extStartLcn: int
    var extEndLcn: int
    var extData: seq<byte>

    constructor (image: seq<byte>, bs: nat, size: nat, idxStart: nat, compact: bool)
      requires bs > 0
      ensures this.image == image && this.bs == bs && this.size == size && this.idxStart == idxStart
      ensures this.compact == compact && nIdx == CeilDiv(size, bs) && extStartLcn == -1 && extEndLcn == 0
    {
      this.image, this.bs, this.size, this.idxStart, this.compact := image, bs, size, idxStart, compact;
      CeilNat(size, bs);
      nIdx := CeilDiv(size, bs);
      extStartLcn, extEndLcn, extData := -1, 0, [];
    }

    function IndexAt(lcn: int): (r: Option<IndexEntry>) {
      if lcn < 0 || lcn >= nIdx then None
      else if compact then CompactIndexAt(image, idxStart, nIdx, lcn)
      else FullIndexAt(image, idxStart, lcn)
    }

    method ReadIndex(lcn: int) returns (r: Option<IndexEntry>)
      ensures r == IndexAt(lcn)
    {
      if lcn < 0 || lcn >= nIdx { return None; }
      if compact { r := ReadCompactIndex(image, idxStart, nIdx, lcn); return; }
      r := FullIndexAt(image, idxStart, lcn);
    }

    // ---- what the image promises --------------------------------------------------------

    ghost predicate IndexMeans(m: Mapping, eof: bool, k: nat, i: nat)
      requires m.bs > 0 && k < |m.extents|
    {
      var r := IndexAt(Start(m.extents, k) + i);
      r.Some? && Means(m, eof, k, i, r.value)
    }

    /** This inode's indexes describe m, whose data is in the image. */
    ghost predicate Indexed(m: Mapping, eof: bool) {
      Mapped(image, m) && bs == m.bs <= MAX_BLOCK && size == |m.Content()|
      && nIdx == Start(m.extents, |m.extents|)
      && forall k, i :: 0 <= k < |m.extents| && 0 <= i < m.extents[k].lclusters ==> IndexMeans(m, eof, k, i)
    }

    lemma {:induction false} IndexedFacts(m: Mapping, eof: bool)
      requires Indexed(m, eof)
      ensures Mapped(image, m) && 0 < bs == m.bs <= MAX_BLOCK && size == |m.Content()|
      ensures nIdx == Start(m.extents, |m.extents|) && |m.extents| == |m.raws|
    {
    }

    /** The remembered extent, if any, is one of the file's. */
    ghost predicate CacheOk(m: Mapping)
      reads this
    {
      (extStartLcn == -1 && extEndLcn <= 0) || exists k: nat :: k < |m.extents| && k < |m.raws| && Cached(m, k)
    }

    ghost predicate Cached(m: Mapping, k: nat)
      requires k < |m.extents| && k < |m.raws|
      reads this
    {
      extStartLcn == Start(m.extents, k) && !m.extents[k].plain && extData == m.raws[k]
      && extStartLcn <= extEndLcn <= extStartLcn + m.extents[k].lclusters
    }

    // ---- finding the head -----------------------------------------------------------------

    /** Follows deltas back from cluster i of extent k: to the extent's head, or
        nowhere when the cluster is plain or the end marker. */
    method WalkBack(ghost m: Mapping, ghost eof: bool, ghost k: nat, ghost i: nat, lcn: nat)
      returns (head: int, entry: Option<IndexEntry>)
      requires Indexed(m, eof) && k < |m.extents| && i < m.extents[k].lclusters && lcn == Start(m.extents, k) + i
      ensures entry == IndexAt(head) && entry.Some?
      ensures if m.extents[k].plain || (eof && IsMarker(m, k, i)) then head == lcn else head == Start(m.extents, k)
    {
      hide ExtentOk, IndexAt;
      head := lcn;
      ghost var j := i;
      assert IndexMeans(m, eof, k, j);
      entry := ReadIndex(head);
      while entry.value.typ % 4 == NONHEAD
        invariant 0 <= j <= i && head == Start(m.extents, k) + j && entry == IndexAt(head) && entry.Some?
        invariant j < i ==> !m.extents[k].plain && !(eof && IsMarker(m, k, i))
        decreases head
      {
        assert IndexMeans(m, eof, k, j);
        var d0 := entry.value.u % 65536;
        if HasCount(d0) { d0 := 1; }
        if d0 == 0 { return head, None; }
        head := head - d0;
        j := j - d0;
        assert IndexMeans(m, eof, k, j);
        entry := ReadIndex(head);
      }
      assert IndexMeans(m, eof, k, j);
    }

    // ---- one extent -------------------------------------------------------------------------

    /** The index right after an extent starts another one. */
    lemma {:induction false} NextIsHead(m: Mapping, eof: bool, k: nat)
      requires Indexed(m, eof) && k < |m.extents| && Start(m.extents, k + 1) < nIdx
      ensures k + 1 < |m.extents|
      ensures var r := IndexAt(Start(m.extents, k + 1)); r.Some? && r.value.typ % 4 != NONHEAD && !IsBoundary(r.value)
    {
      hide IndexAt, ExtentOk, CeilDiv;
      ExtentShape(image, m, k + 1);
      CeilNat(|m.raws[k + 1]|, m.bs);
      assert IndexMeans(m, eof, k + 1, 0);
    }

    /** What the scan meets j clusters into extent k. */
    lemma {:induction false} ScanMeets(m: Mapping, eof: bool, k: nat, j: nat)
      requires Indexed(m, eof) && k < |m.extents| && !m.extents[k].plain && 0 < j <= m.extents[k].lclusters
      requires Start(m.extents, k) + j < nIdx
      ensures var r := IndexAt(Start(m.extents, k) + j); var e := m.extents[k];
        r.Some? && (r.value.typ % 4 == NONHEAD <==> j < e.lclusters && !(eof && IsMarker(m, k, j)))
        && (r.value.typ % 4 == NONHEAD && j == 1 ==> HasCount(Delta0(r.value)) && WithoutCount(Delta0(r.value)) == e.blocks)
        && (r.value.typ % 4 != NONHEAD ==>
              IsBoundary(r.value) == (j < e.lclusters) && (j < e.lclusters ==> r.value.clusterofs == MarkerOfs(m)))
    {
      hide IndexAt, ExtentOk;
      if j < m.extents[k].lclusters {
        assert IndexMeans(m, eof, k, j);
      } else {
        NextIsHead(m, eof, k);
      }
    }

    /** Counts the clusters of a compressed extent up to its end or the end marker. */
    method ScanExtent(ghost m: Mapping, ghost eof: bool, ghost k: nat, head: nat)
      returns (blocks: nat, lclusters: nat, tail: nat, ok: bool)
      requires Indexed(m, eof) && k < |m.extents| && !m.extents[k].plain && head == Start(m.extents, k)
      ensures ok && blocks == m.extents[k].blocks
      ensures lclusters == m.extents[k].lclusters - (if Marked(m, eof, k) then 1 else 0)
      ensures tail == (if Marked(m, eof, k) then MarkerOfs(m) else 0)
    {
      hide Indexed, IndexAt, Mapped, HasCount, WithoutCount, MarkerOfs, Start;
      IndexedFacts(m, eof);
      blocks, lclusters, tail, ok := 1, 1, 0, true;
      ghost var e := m.extents[k];
      MappedShaped(image, m, k);
      NextInRange(image, m, k, 1);
      while head + lclusters < nIdx
        invariant 1 <= lclusters <= e.lclusters && head + lclusters <= nIdx && tail == 0
        invariant blocks == (if lclusters >= 2 then e.blocks else 1)
        invariant forall j :: 1 <= j < lclusters ==> !(eof && IsMarker(m, k, j))
      {
        ScanMeets(m, eof, k, lclusters);
        var entry := ReadIndex(head + lclusters);
        if entry.None? { ok := false; return; }
        if entry.value.typ % 4 != NONHEAD {
          if IsBoundary(entry.value) { tail := entry.value.clusterofs; }
          break;
        }
        var d0 := entry.value.u % 65536;
        if lclusters == 1 && HasCount(d0) { blocks := WithoutCount(d0); }
        lclusters := lclusters + 1;
        NextInRange(image, m, k, lclusters);
      }
      NextInRange(image, m, k, lclusters);
    }

    /** Sizes and decodes the extent whose head is given. */
    method DecodeExtent(ghost m: Mapping, ghost eof: bool, ghost k: nat, head: nat, blkaddr: nat)
      returns (data: Option<seq<byte>>, lclusters: nat)
      requires Indexed(m, eof) && k < |m.extents| && !m.extents[k].plain
      requires head == Start(m.extents, k) && blkaddr == m.extents[k].blkOff
      ensures k < |m.raws| && data == Some(m.raws[k]) && lclusters <= m.extents[k].lclusters
    {
      hide Indexed, Decode, SkipZeros, ExtentOk, MarkerOfs, Flatten, ExtentSize, Start, Marked;
      IndexedFacts(m, eof);
      CompressedShape(image, m, k);
      data := None;
      var blocks, tail, ok;
      blocks, lclusters, tail, ok := ScanExtent(m, eof, k, head);
      if !ok { return; }
      var decompressed := ExtentSize(bs, size, head, lclusters, tail);
      ExtentSizeExact(image, m, eof, k);
      if bs * blocks > MAX_PCLUSTER || decompressed <= 0 || decompressed > MAX_EXTENT { return; }
      RegionSlice(bs, image, m.extents[k]);
      data := DecodeRegion(image, bs * blkaddr, bs * blocks, decompressed);
    }

    /** Replaces the remembered extent. */
    method Remember(ghost m: Mapping, ghost k: nat, head: nat, lclusters: nat, data: seq<byte>)
      requires k < |m.extents| && k < |m.raws| && !m.extents[k].plain
      requires head == Start(m.extents, k) && lclusters <= m.extents[k].lclusters && data == m.raws[k]
      modifies this
      ensures CacheOk(m)
    {
      extStartLcn, extEndLcn, extData := head, head + lclusters, data;
      assert Cached(m, k);
    }

    /** What concurrent readers may do while this one is not in a critical section: any
        number of them decode extents of their choice and remember them. */
    method Others(ghost m: Mapping, ghost eof: bool)
      requires Indexed(m, eof) && CacheOk(m)
      modifies this
      ensures CacheOk(m)
    {
      hide Indexed, CacheOk, ExtentOk, Mapped;
      var left: nat := *;
      while left > 0
        invariant CacheOk(m)
      {
        left := left - 1;
        var lcn: nat := *;
        if lcn < nIdx { Elsewhere(m, eof, lcn); }
      }
    }

    /** Another reader's miss at a cluster. */
    method Elsewhere(ghost m: Mapping, ghost eof: bool, lcn: nat)
      requires Indexed(m, eof) && CacheOk(m) && lcn < nIdx
      modifies this
      ensures CacheOk(m)
    {
      hide Indexed, CacheOk, ExtentOk, Start;
      IndexedFacts(m, eof);
      ghost var k, i := Locate(m.extents, |m.extents|, lcn);
      var head, entry := FindHead(m, eof, k, i, lcn);
      if entry.None? || entry.value.typ % 4 != HEAD1 { return; }
      var data, lclusters := DecodeExtent(m, eof, k, head, entry.value.u);
      if data.Some? { Remember(m, k, head, lclusters, data.value); }
    }

    /** The decoded extent whose head is given, from memory or from the image. */
    method ExtentData(ghost m: Mapping, ghost eof: bool, ghost k: nat, head: nat, blkaddr: nat) returns (data: Option<seq<byte>>)
      requires Indexed(m, eof) && CacheOk(m) && k < |m.extents| && !m.extents[k].plain
      requires head == Start(m.extents, k) && blkaddr == m.extents[k].blkOff
      modifies this
      ensures CacheOk(m) && k < |m.raws| && data == Some(m.raws[k])
    {
      hide Indexed, ExtentOk, Flatten, Start;
      IndexedFacts(m, eof);
      Others(m, eof);
      if extStartLcn == head {
        ghost var c: nat :| c < |m.extents| && c < |m.raws| && Cached(m, c);
        StartInjective(image, m, c, k);
        return Some(extData);
      }
      hide CacheOk;
      var lclusters;
      data, lclusters := DecodeExtent(m, eof, k, head, blkaddr);
      if data.None? { return; }
      Others(m, eof);
      Remember(m, k, head, lclusters, data.value);
    }

    /** The remembered bytes of a block, when the remembered extent has them. */
    method CopyCachedBlock(ghost m: Mapping, lcn: nat, n: nat) returns (r: Option<seq<byte>>)
      requires Mapped(image, m) && bs == m.bs && CacheOk(m)
      requires lcn < Start(m.extents, |m.extents|) && n == BlockLen(bs, |m.Content()|, lcn)
      ensures r.Some? ==> r.value == Slice(m.Content(), bs * lcn, n)
    {
      hide ExtentOk;
      if lcn < extStartLcn || lcn >= extEndLcn { return None; }
      var start := bs * (lcn - extStartLcn);
      if start < 0 || start + n > |extData| { return None; }
      ghost var c: nat :| c < |m.extents| && c < |m.raws| && Cached(m, c);
      BlockInExtent(image, m, c, lcn - extStartLcn);
      r := Some(Slice(extData, start, n));
    }

    /** The extent that holds cluster i of extent k, stepping over an end marker. */
    method FindHead(ghost m: Mapping, ghost eof: bool, ghost k: nat, ghost i: nat, lcn: nat)
      returns (head: int, entry: Option<IndexEntry>)
      requires Indexed(m, eof) && k < |m.extents| && i < m.extents[k].lclusters && lcn == Start(m.extents, k) + i
      ensures entry.Some?
      ensures m.extents[k].plain ==> head == lcn && entry.value == IndexEntry(PLAIN, 0, m.extents[k].blkOff + i)
      ensures !m.extents[k].plain ==>
        head == Start(m.extents, k) && entry.value.typ == HEAD1 && entry.value.u == m.extents[k].blkOff
    {
      hide IndexAt, ExtentOk, NonHeadMeans;
      assert IndexMeans(m, eof, k, i) && IndexMeans(m, eof, k, 0);
      head, entry := WalkBack(m, eof, k, i, lcn);
      if IsBoundary(entry.value) {
        // data before the marker's offset belongs to the extent behind it
        assert eof && IsMarker(m, k, i);
        head, entry := WalkBack(m, eof, k, i - 1, head - 1);
      }
    }

    /** Reads one logical block, in any order of reads and whatever other readers do to
        the remembered extent meanwhile: exactly the file's bytes there. */
    method ReadBlock(ghost m: Mapping, ghost eof: bool, lcn: nat, n: nat) returns (r: Option<seq<byte>>)
      requires Indexed(m, eof) && CacheOk(m) && lcn < nIdx && n == BlockLen(bs, size, lcn)
      modifies this
      ensures CacheOk(m) && r == Some(Slice(m.Content(), bs * lcn, n))
    {
      hide Indexed, ExtentOk, Start, Flatten, CacheOk;
      IndexedFacts(m, eof);
      Others(m, eof);
      r := CopyCachedBlock(m, lcn, n);
      if r.Some? { return; }
      ghost var k, i := Locate(m.extents, |m.extents|, lcn);
      BlockExtent(image, m, k, i);
      BlockInExtent(image, m, k, i);
      if m.extents[k].plain { PlainBlock(image, m, k, i, n); }
      hide Mapped;
      var head, entry := FindHead(m, eof, k, i, lcn);
      if entry.None? { return None; }
      if entry.value.typ % 4 == PLAIN {
        var off := bs * (lcn - head);
        assert off == 0 by { MulBounds(bs, lcn - head); }
        var b := Slice(image, bs * entry.value.u + off, n);
        return if |b| == n then Some(b) else None;
      }
      if entry.value.typ % 4 != HEAD1 { return None; }
      var data := ExtentData(m, eof, k, head, entry.value.u);
      if data.None? { return None; }
      var start := bs * (lcn - head);
      assert start == bs * i;
      if start >= |data.value| || start + n > |data.value| { return None; }
      r := Some(Slice(data.value, start, n));
    }
  }
}
