/**
 The index of a compressed file: one entry per logical cluster, and the
 full-width encoding of the entries with their map header.
 */
module ZIndex {
  import opened Bytes
  import opened Arith
  import opened SpanPacker
  import opened Spool
  import opened FileMap

  // ---- little-endian integers ------------------------------------------------------

  function Put16(v: nat): (r: seq<byte>)
    requires v < 0x1_0000
    ensures |r| == 2
  {
    [v % 256, v / 256]
  }

  function Put32(v: nat): (r: seq<byte>)
    requires v < 0x1_0000_0000
    ensures |r| == 4
  {
    Put16(v % 65536) + Put16(v / 65536)
  }

  function Get16(b: seq<byte>, at: nat): (v: nat)
    requires at + 2 <= |b|
  {
    b[at] + 256 * (b[at + 1] as int)
  }

  function Get32(b: seq<byte>, at: nat): (v: nat)
    requires at + 4 <= |b|
  {
    Get16(b, at) + 65536 * Get16(b, at + 2)
  }

  lemma {:induction false} Get16Put16(v: nat, before: seq<byte>, after: seq<byte>)
    requires v < 0x1_0000
    ensures Get16(before + Put16(v) + after, |before|) == v
  {
  }

  lemma {:induction false} Get32Put32(v: nat, before: seq<byte>, after: seq<byte>)
    requires v < 0x1_0000_0000
    ensures Get32(before + Put32(v) + after, |before|) == v
  {
    var lo, hi := v % 65536, v / 65536;
    Get16Put16(lo, before, Put16(hi) + after);
    Get16Put16(hi, before + Put16(lo), after);
    assert before + Put32(v) + after == before + Put16(lo) + (Put16(hi) + after) == before + Put16(lo) + Put16(hi) + after;
  }

  // ---- the entries -------------------------------------------------------------------

  /** Bit 11 set in a block count, as the first delta of an extent carries it. */
  function WithCount(blocks: nat): (d: nat) {
    if HasCount(blocks) then blocks else blocks + CBLKCNT
  }

  /** Of the counts a cluster within 1 MiB can have, all but the largest survive: the one
      that reaches the flag bit does not. */
  lemma {:induction false} CountSurvives(blocks: nat)
    requires blocks <= CBLKCNT
    ensures HasCount(WithCount(blocks))
    ensures WithCount(blocks) - CBLKCNT == blocks <==> blocks < CBLKCNT
  {
  }

  function FirstDelta(e: Extent, i: nat): (d: nat) {
    if i == 1 then WithCount(e.blocks) else Min(i, CBLKCNT - 1)
  }

  function EntryFor(m: Mapping, eofMarker: bool, k: nat, i: nat): (r: IndexEntry)
    requires m.bs > 0 && k < |m.extents| && i < m.extents[k].lclusters
  {
    var e := m.extents[k];
    if e.plain then IndexEntry(PLAIN, 0, e.blkOff + i)
    else if i == 0 then IndexEntry(HEAD1, 0, e.blkOff)
    else if eofMarker && IsMarker(m, k, i) then IndexEntry(PLAIN, MarkerOfs(m), 0)
    else IndexEntry(NONHEAD, 0, FirstDelta(e, i) + 65536 * (e.lclusters - i))
  }

  /** entries lists, in order, the entry of every cluster of the first k extents. */
  ghost predicate Lists(m: Mapping, eofMarker: bool, k: nat, entries: seq<IndexEntry>)
    requires m.bs > 0 && k <= |m.extents|
  {
    |entries| == Start(m.extents, k)
    && forall j, i :: 0 <= j < k && 0 <= i < m.extents[j].lclusters ==>
         InRange(m.extents, j, i, |entries|)
         && entries[Start(m.extents, j) + i] == EntryFor(m, eofMarker, j, i)
  }

  ghost predicate InRange(extents: seq<Extent>, j: nat, i: nat, n: nat)
    requires j <= |extents|
  {
    Start(extents, j) + i < n
  }

  method IndexEntries(m: Mapping, eofMarker: bool) returns (entries: seq<IndexEntry>)
    requires m.bs > 0
    ensures Lists(m, eofMarker, |m.extents|, entries)
  {
    entries := [];
    var k := 0;
    var tailOfs := |m.Content()| % m.bs % 65536;
    while k < |m.extents|
      invariant 0 <= k <= |m.extents| && Lists(m, eofMarker, k, entries)
    {
      var e := m.extents[k];
      var marker := eofMarker && k == |m.extents| - 1 && tailOfs != 0;
      ghost var before := entries;
      var i := 0;
      while i < e.lclusters
        invariant 0 <= i <= e.lclusters && |entries| == |before| + i && before <= entries
        invariant forall j :: 0 <= j < i ==> entries[|before| + j] == EntryFor(m, eofMarker, k, j)
      {
        if e.plain {
          entries := entries + [IndexEntry(PLAIN, 0, e.blkOff + i)];
        } else if i == 0 {
          entries := entries + [IndexEntry(HEAD1, 0, e.blkOff)];
        } else if marker && i == e.lclusters - 1 {
          entries := entries + [IndexEntry(PLAIN, tailOfs, 0)];
        } else {
          var d0 := if i == 1 then WithCount(e.blocks) else if i >= CBLKCNT then CBLKCNT - 1 else i;
          entries := entries + [IndexEntry(NONHEAD, 0, d0 + 65536 * (e.lclusters - i))];
        }
        i := i + 1;
      }
      ListsSnoc(m, eofMarker, k, before, entries);
      k := k + 1;
    }
  }

  lemma {:induction false} ListsSnoc(m: Mapping, eofMarker: bool, k: nat, before: seq<IndexEntry>, after: seq<IndexEntry>)
    requires m.bs > 0 && k < |m.extents| && Lists(m, eofMarker, k, before)
    requires |after| == |before| + m.extents[k].lclusters && before <= after
    requires forall j :: 0 <= j < m.extents[k].lclusters ==> after[|before| + j] == EntryFor(m, eofMarker, k, j)
    ensures Lists(m, eofMarker, k + 1, after)
  {
    forall j, i | 0 <= j < k + 1 && 0 <= i < m.extents[j].lclusters
      ensures InRange(m.extents, j, i, |after|) && after[Start(m.extents, j) + i] == EntryFor(m, eofMarker, j, i)
    {
      if j < k { assert InRange(m.extents, j, i, |before|); }
    }
  }

  // ---- full indexes --------------------------------------------------------------------

  predicate Storable(e: IndexEntry) { e.typ < 65536 && e.clusterofs < 65536 && e.u < 0x1_0000_0000 }

  function PutEntry(e: IndexEntry): (r: seq<byte>)
    requires Storable(e)
    ensures |r| == 8
  {
    Put16(e.typ) + Put16(e.clusterofs) + Put32(e.u)
  }

  function GetEntry(b: seq<byte>): (e: IndexEntry)
    requires |b| == 8
  {
    IndexEntry(Get16(b, 0), Get16(b, 2), Get32(b, 4))
  }

  lemma {:induction false} EntryRoundTrip(e: IndexEntry)
    requires Storable(e)
    ensures GetEntry(PutEntry(e)) == e
  {
    var a, b, c := Put16(e.typ), Put16(e.clusterofs), Put32(e.u);
    Get16Put16(e.typ, [], b + c);
    Get16Put16(e.clusterofs, a, c);
    Get32Put32(e.u, a + b, []);
    assert [] + a + (b + c) == PutEntry(e) == a + b + c == a + b + c + [];
  }

  function PutEntries(entries: seq<IndexEntry>): (r: seq<byte>)
    requires forall e <- entries :: Storable(e)
    ensures |r| == 8 * |entries|
  {
    if entries == [] then [] else PutEntries(entries[..|entries| - 1]) + PutEntry(entries[|entries| - 1])
  }

  lemma {:induction false} PutEntriesAt(entries: seq<IndexEntry>, n: nat)
    requires forall e <- entries :: Storable(e)
    requires n < |entries|
    ensures Slice(PutEntries(entries), 8 * n, 8) == PutEntry(entries[n])
    decreases |entries|
  {
    var last := |entries| - 1;
    if n < last {
      PutEntriesAt(entries[..last], n);
      SlicePrefix(PutEntries(entries[..last]), PutEntry(entries[last]), 8 * n, 8);
    }
  }

  lemma {:induction false} SlicePrefix(a: seq<byte>, b: seq<byte>, at: nat, n: nat)
    requires at + n <= |a|
    ensures Slice(a + b, at, n) == Slice(a, at, n)
  {
  }

  /** What a reader finds in a full index array that starts at idxStart. */
  function FullIndexAt(image: seq<byte>, idxStart: nat, lcn: nat): (r: Option<IndexEntry>) {
    var b := Slice(image, idxStart + 8 * lcn, 8);
    if |b| == 8 then Some(GetEntry(b)) else None
  }

  /** Extents whose indexes fit their fields, as many clusters as the file has blocks. */
  ghost predicate Indexable(m: Mapping) {
    512 <= m.bs && (forall e <- m.extents :: Shaped(e) && (!e.plain ==> e.lclusters <= 32768))
    && Start(m.extents, |m.extents|) == CeilDiv(|m.Content()|, m.bs)
  }

  lemma {:induction false} MappedIndexable(image: seq<byte>, m: Mapping)
    requires Mapped(image, m)
    ensures Indexable(m)
  {
    hide ExtentOk, Flatten;
    ClusterCount(image, m);
    forall k | 0 <= k < |m.extents| ensures Shaped(m.extents[k]) && (!m.extents[k].plain ==> m.extents[k].lclusters <= 32768) {
      MappedShaped(image, m, k);
      ExtentShape(image, m, k);
      if !m.extents[k].plain { FewClusters(m.bs, |m.raws[k]|); }
    }
  }

  lemma {:induction false} FewClusters(bs: nat, n: nat)
    requires 512 <= bs && n <= MAX_EXTENT
    ensures CeilDiv(n, bs) <= 32768
  {
    CeilBounds(n, bs);
    var c := CeilDiv(n, bs);
    if c > 0 { MulMonotone(c - 1, 512, bs); }
    assert bs * c - bs == (c - 1) * bs;
  }

  /** Addresses, deltas and offsets fit their fields. */
  lemma {:induction false} AllStorable(m: Mapping, eofMarker: bool, entries: seq<IndexEntry>)
    requires Indexable(m) && Lists(m, eofMarker, |m.extents|, entries)
    ensures forall e <- entries :: Storable(e)
  {
    forall n | 0 <= n < |entries| ensures Storable(entries[n]) {
      var k, i := Locate(m.extents, |m.extents|, n);
      assert InRange(m.extents, k, i, |entries|);
      assert m.extents[k] in m.extents;
    }
  }

  /** The entry written for a cluster is a correct index for it. */
  lemma {:induction false} EntryMeans(image: seq<byte>, m: Mapping, eofMarker: bool, k: nat, i: nat)
    requires Mapped(image, m) && k < |m.extents| && i < m.extents[k].lclusters
    ensures Means(m, eofMarker, k, i, EntryFor(m, eofMarker, k, i))
  {
    hide Mapped, FirstDelta, NonHeadMeans, Delta0;
    MappedShaped(image, m, k);
    if !m.extents[k].plain { NonHeadEntry(m.extents[k], i); }
  }

  lemma {:induction false} NonHeadEntry(e: Extent, i: nat)
    requires e.blocks < CBLKCNT && i < e.lclusters
    ensures FirstDelta(e, i) < 65536 && (i > 0 ==> NonHeadMeans(e, i, FirstDelta(e, i)))
    ensures Delta0(IndexEntry(NONHEAD, 0, FirstDelta(e, i) + 65536 * (e.lclusters - i))) == FirstDelta(e, i)
  {
    var d, x := FirstDelta(e, i), e.lclusters - i;
    assert (d + 65536 * x) % 65536 == d;
  }

  /** Reading the full index back gives a correct entry for every cluster. */
  lemma {:induction false} FullIndexRoundTrip(image: seq<byte>, m: Mapping, idxStart: nat, entries: seq<IndexEntry>, k: nat, i: nat)
    requires Mapped(image, m) && Lists(m, true, |m.extents|, entries)
    requires forall e <- entries :: Storable(e)   // see AllStorable
    requires Slice(image, idxStart, 8 * |entries|) == PutEntries(entries)
    requires k < |m.extents| && i < m.extents[k].lclusters
    ensures var r := FullIndexAt(image, idxStart, Start(m.extents, k) + i);
      r.Some? && Means(m, true, k, i, r.value)
  {
    hide ExtentOk, Means;
    var lcn := Start(m.extents, k) + i;
    assert InRange(m.extents, k, i, |entries|);
    var all := PutEntries(entries);
    PutEntriesAt(entries, lcn);
    SliceOfSlice(image, idxStart, all, 8 * lcn, 8);
    EntryRoundTrip(entries[lcn]);
    EntryMeans(image, m, true, k, i);
  }
}
