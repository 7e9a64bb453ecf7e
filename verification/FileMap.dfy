/**
 What a compressed file is on disk, independently of how its indexes are
 encoded: a list of extents, the bytes each holds, and what the index of each
 logical cluster must say for a reader to find them.
 */
module FileMap {
  import opened Bytes
  import opened Arith
  import opened Lz4Format
  import opened SpanPacker
  import opened Spool

  const PLAIN := 0
  const HEAD1 := 1
  const NONHEAD := 2

  datatype IndexEntry = IndexEntry(typ: nat, clusterofs: nat, u: nat)

  /** The low half of an index's payload: its backward delta. */
  function Delta0(e: IndexEntry): (d: nat) { e.u % 65536 }

  predicate HasCount(d: nat) { d / CBLKCNT % 2 == 1 }

  // ---- the logical layout --------------------------------------------------------

  /** The logical cluster at which extent k starts. */
  function Start(extents: seq<Extent>, k: nat): (s: nat)
    requires k <= |extents|
  {
    if k == 0 then 0 else Start(extents, k - 1) + extents[k - 1].lclusters
  }

  lemma {:induction false} StartMonotone(extents: seq<Extent>, j: nat, k: nat)
    requires j <= k <= |extents|
    ensures Start(extents, j) <= Start(extents, k)
    decreases k - j
  {
    if j < k { StartMonotone(extents, j, k - 1); }
  }

  /** Every logical cluster lies in some extent. */
  lemma {:induction false} Locate(extents: seq<Extent>, n: nat, lcn: nat) returns (k: nat, i: nat)
    requires n <= |extents| && lcn < Start(extents, n)
    ensures k < n && i < extents[k].lclusters && lcn == Start(extents, k) + i
  {
    if lcn >= Start(extents, n - 1) {
      k, i := n - 1, lcn - Start(extents, n - 1);
    } else {
      k, i := Locate(extents, n - 1, lcn);
    }
  }

  function Flatten(raws: seq<seq<byte>>): (r: seq<byte>) {
    if raws == [] then [] else Flatten(raws[..|raws| - 1]) + raws[|raws| - 1]
  }

  lemma {:induction false} FlattenAt(raws: seq<seq<byte>>, k: nat)
    requires k < |raws|
    ensures var before := |Flatten(raws[..k])|;
      before + |raws[k]| <= |Flatten(raws)| && Flatten(raws)[before..before + |raws[k]|] == raws[k]
    decreases |raws|
  {
    var last := |raws| - 1;
    if k < last {
      FlattenAt(raws[..last], k);
      assert raws[..last][..k] == raws[..k];
    }
  }

  /** A file's extents, at absolute block addresses, with the bytes each holds. */
  datatype Mapping = Mapping(bs: nat, extents: seq<Extent>, raws: seq<seq<byte>>)
  {
    function Content(): (r: seq<byte>) { Flatten(raws) }
  }

  ghost predicate ExtentOk(bs: nat, image: seq<byte>, e: Extent, raw: seq<byte>) {
    ReadsBack(bs, image, e, raw) && e.blkOff + e.blocks < 0x1_0000_0000
  }

  /** Every extent is readable from image, and only the last may end mid-block. */
  ghost predicate Mapped(image: seq<byte>, m: Mapping) {
    512 <= m.bs && |m.extents| == |m.raws|
    && (forall k :: 0 <= k < |m.raws| ==> ExtentOk(m.bs, image, m.extents[k], m.raws[k]))
    && (forall k :: 0 <= k < |m.raws| - 1 ==> |m.raws[k]| % m.bs == 0)
  }

  /** The shape of an extent that the indexes rely on. */
  ghost predicate Shaped(e: Extent) {
    1 <= e.lclusters && (if e.plain then e.blocks == e.lclusters else 1 <= e.blocks < e.lclusters && e.blocks < CBLKCNT)
    && e.blkOff + e.blocks < 0x1_0000_0000
  }

  lemma {:induction false} MappedShaped(image: seq<byte>, m: Mapping, k: nat)
    requires Mapped(image, m) && k < |m.extents|
    ensures Shaped(m.extents[k]) && (!m.extents[k].plain ==> Compressed(m.bs, m.extents[k], m.raws[k]))
  {
    hide Region, SkipZeros, Decode;
    assert ExtentOk(m.bs, image, m.extents[k], m.raws[k]);
    CeilNat(|m.raws[k]|, m.bs);
  }

  lemma {:induction false} ExtentShape(image: seq<byte>, m: Mapping, k: nat)
    requires Mapped(image, m) && k < |m.raws|
    ensures m.raws[k] != [] && m.extents[k].lclusters == CeilDiv(|m.raws[k]|, m.bs)
    ensures k < |m.raws| - 1 ==> |m.raws[k]| == m.bs * m.extents[k].lclusters
  {
    hide Region, Decode;
    assert ExtentOk(m.bs, image, m.extents[k], m.raws[k]);
    if k < |m.raws| - 1 {
      DivExact(|m.raws[k]|, m.bs);
      CeilUnique(|m.raws[k]|, m.bs, |m.raws[k]| / m.bs);
    }
  }

  /** Extents before the last fill their clusters, so positions are block positions. */
  lemma {:induction false} StartBytes(image: seq<byte>, m: Mapping, k: nat)
    requires Mapped(image, m) && k < |m.raws|
    ensures m.bs * Start(m.extents, k) == |Flatten(m.raws[..k])|
    decreases k
  {
    hide ExtentOk;
    if k > 0 {
      StartBytes(image, m, k - 1);
      ExtentShape(image, m, k - 1);
      FlattenSnoc(m.raws, k - 1);
      MulSplit(m.bs, Start(m.extents, k - 1), m.extents[k - 1].lclusters);
    }
  }

  lemma {:induction false} FlattenSnoc(raws: seq<seq<byte>>, k: nat)
    requires k < |raws|
    ensures Flatten(raws[..k + 1]) == Flatten(raws[..k]) + raws[k]
  {
    assert raws[..k + 1][..k] == raws[..k];
  }

  lemma {:induction false} ContentSize(image: seq<byte>, m: Mapping)
    requires Mapped(image, m) && |m.raws| > 0
    ensures var n := |m.raws| - 1; |m.Content()| == m.bs * Start(m.extents, n) + |m.raws[n]|
  {
    hide ExtentOk;
    var n := |m.raws| - 1;
    StartBytes(image, m, n);
    FlattenSnoc(m.raws, n);
    assert m.raws[..n + 1] == m.raws;
  }

  /** The content of the block at lcn: a full block, or the file's tail. */
  function BlockLen(bs: nat, size: nat, lcn: nat): (n: int) { Min(bs, size - bs * lcn) }

  function Slice(s: seq<byte>, at: int, n: int): (r: seq<byte>) {
    if 0 <= at && 0 <= n && at + n <= |s| then s[at..at + n] else []
  }

  /** How many bytes block i of extent k holds. */
  lemma {:induction false} BlockExtent(image: seq<byte>, m: Mapping, k: nat, i: nat)
    requires Mapped(image, m) && k < |m.raws| && i < m.extents[k].lclusters
    ensures var n := BlockLen(m.bs, |m.Content()|, Start(m.extents, k) + i);
      0 < n <= m.bs && m.bs * i + n <= |m.raws[k]|
      && (n < m.bs ==> k == |m.raws| - 1 && i == m.extents[k].lclusters - 1 && m.bs * i + n == |m.raws[k]|)
  {
    hide ExtentOk, Flatten;
    ExtentShape(image, m, k);
    BlockOfRaw(m.bs, |m.raws[k]|, i);
    MulSplit(m.bs, Start(m.extents, k), i);
    StartBytes(image, m, k);
    FlattenAt(m.raws, k);
    if k < |m.raws| - 1 {
      MulMonotone(m.bs, i + 1, m.extents[k].lclusters);
      MulSplit(m.bs, i, 1);
    } else {
      ContentSize(image, m);
    }
  }

  lemma {:induction false} BlockInExtent(image: seq<byte>, m: Mapping, k: nat, i: nat)
    requires Mapped(image, m) && k < |m.raws| && i < m.extents[k].lclusters
    ensures var lcn := Start(m.extents, k) + i;
      var n := BlockLen(m.bs, |m.Content()|, lcn);
      Slice(m.Content(), m.bs * lcn, n) == Slice(m.raws[k], m.bs * i, n)
  {
    hide ExtentOk, Flatten;
    BlockExtent(image, m, k, i);
    MulSplit(m.bs, Start(m.extents, k), i);
    StartBytes(image, m, k);
    FlattenAt(m.raws, k);
    SliceOfSlice(m.Content(), m.bs * Start(m.extents, k), m.raws[k], m.bs * i,
                 BlockLen(m.bs, |m.Content()|, Start(m.extents, k) + i));
  }

  lemma {:induction false} SliceOfSlice(s: seq<byte>, at: nat, part: seq<byte>, i: nat, n: nat)
    requires at + |part| <= |s| && s[at..at + |part|] == part && i + n <= |part|
    ensures Slice(s, at + i, n) == Slice(part, i, n)
  {
    var a, b := s[at + i..at + i + n], part[i..i + n];
    forall j | 0 <= j < n ensures a[j] == b[j] {
      assert s[at..at + |part|][i + j] == part[i + j];
    }
  }

  lemma {:induction false} SliceInside(s: seq<byte>, at: nat, part: seq<byte>, i: nat, n: nat)
    requires Slice(s, at, |part|) == part && i + n <= |part|
    ensures Slice(s, at + i, n) == Slice(part, i, n)
  {
    if |part| > 0 { SliceOfSlice(s, at, part, i, n); }
  }

  lemma {:induction false} BlockOfRaw(bs: nat, len: nat, i: nat)
    requires bs > 0 && i < CeilDiv(len, bs)
    ensures bs * i < len && (len < bs * i + bs ==> i == CeilDiv(len, bs) - 1)
  {
    CeilBounds(len, bs);
    MulMonotone(bs, i, CeilDiv(len, bs) - 1);
    assert bs * (CeilDiv(len, bs) - 1) == bs * CeilDiv(len, bs) - bs;
    if i < CeilDiv(len, bs) - 1 {
      MulMonotone(bs, i + 2, CeilDiv(len, bs));
      assert bs * (i + 2) == bs * i + bs + bs;
    }
  }

  /** The number of logical clusters is the number of blocks of content. */
  lemma {:induction false} ClusterCount(image: seq<byte>, m: Mapping)
    requires Mapped(image, m)
    ensures Start(m.extents, |m.extents|) == CeilDiv(|m.Content()|, m.bs)
  {
    hide ExtentOk;
    var n := |m.raws|;
    if n == 0 {
      CeilUnique(0, m.bs, 0);
    } else {
      ContentSize(image, m);
      ExtentShape(image, m, n - 1);
      var s, l := Start(m.extents, n - 1), m.extents[n - 1].lclusters;
      CeilBounds(|m.raws[n - 1]|, m.bs);
      MulSplit(m.bs, s, l);
      CeilUnique(|m.Content()|, m.bs, s + l);
    }
  }

  // ---- what an index entry must say ------------------------------------------------

  /** The bytes of the last block when the file ends inside one. */
  function TailOfs(m: Mapping): (r: nat)
    requires m.bs > 0
  {
    |m.Content()| % m.bs
  }

  /** The tail as the 16-bit field of a boundary marker holds it. */
  function MarkerOfs(m: Mapping): (r: nat)
    requires m.bs > 0
  {
    TailOfs(m) % 65536
  }

  /** The largest block of an image that a reader opens. */
  const MAX_BLOCK := 65536

  /** In such an image the marker tells the tail. */
  lemma {:induction false} MarkerExact(m: Mapping)
    requires 0 < m.bs <= MAX_BLOCK
    ensures MarkerOfs(m) == TailOfs(m)
  {
  }

  /** The last cluster of a compressed last extent may be replaced by a marker that
      says where the file ends. */
  predicate IsMarker(m: Mapping, k: nat, i: nat)
    requires m.bs > 0 && k < |m.extents|
  {
    k == |m.extents| - 1 && !m.extents[k].plain && 0 < i == m.extents[k].lclusters - 1 && MarkerOfs(m) != 0
  }

  ghost predicate NonHeadMeans(e: Extent, i: nat, d0: nat) {
    (i == 1 ==> HasCount(d0) && d0 == CBLKCNT + e.blocks) && (i > 1 && !HasCount(d0) ==> 1 <= d0 <= i)
  }

  /** entry is a correct index for cluster i of extent k. */
  ghost predicate Means(m: Mapping, eofMarker: bool, k: nat, i: nat, entry: IndexEntry)
    requires m.bs > 0 && k < |m.extents|
  {
    var e := m.extents[k];
    if e.plain then entry == IndexEntry(PLAIN, 0, e.blkOff + i)
    else if i == 0 then entry.typ == HEAD1 && entry.u == e.blkOff
    else if eofMarker && IsMarker(m, k, i) then entry == IndexEntry(PLAIN, MarkerOfs(m), 0)
    else entry.typ == NONHEAD && NonHeadMeans(e, i, Delta0(entry))
  }
}
