/**
 A compressed file from its bytes to its place in the image: packed spans are
 stored, their extents placed at the data region's base, and the result is a
 mapping that the indexes can describe.
 */
module ZFile {
  import opened Bytes
  import opened Arith
  import opened SpanPacker
  import opened Spool
  import opened FileMap

  function RawsOf(spans: seq<PackedSpan>): (r: seq<seq<byte>>)
    ensures |r| == |spans|
  {
    seq(|spans|, i requires 0 <= i < |spans| => spans[i].raw)
  }

  lemma {:induction false} RawsFlatten(spans: seq<PackedSpan>)
    ensures Flatten(RawsOf(spans)) == Raws(spans)
    decreases |spans|
  {
    if spans != [] {
      var before := spans[..|spans| - 1];
      RawsFlatten(before);
      assert RawsOf(spans)[..|spans| - 1] == RawsOf(before);
    }
  }

  /** The extents, in order, read back to the raws, in order. */
  ghost predicate StoredAs(bs: nat, spool: seq<byte>, extents: seq<Extent>, raws: seq<seq<byte>>) {
    |extents| == |raws| && forall k :: 0 <= k < |raws| ==> ReadsBack(bs, spool, extents[k], raws[k])
  }

  lemma {:induction false} StoredAsGrows(bs: nat, spool: seq<byte>, bigger: seq<byte>, extents: seq<Extent>, raws: seq<seq<byte>>)
    requires StoredAs(bs, spool, extents, raws) && spool <= bigger
    ensures StoredAs(bs, bigger, extents, raws)
  {
    forall k | 0 <= k < |raws| ensures ReadsBack(bs, bigger, extents[k], raws[k]) {
      ReadsBackStable(bs, spool, bigger[|spool|..], extents[k], raws[k]);
      assert spool + bigger[|spool|..] == bigger;
    }
  }

  lemma {:induction false} StoredAsSnoc(bs: nat, spool: seq<byte>, bigger: seq<byte>, extents: seq<Extent>, raws: seq<seq<byte>>,
                                        e: Extent, raw: seq<byte>)
    requires StoredAs(bs, spool, extents, raws) && spool <= bigger && ReadsBack(bs, bigger, e, raw)
    ensures StoredAs(bs, bigger, extents + [e], raws + [raw])
  {
    StoredAsGrows(bs, spool, bigger, extents, raws);
  }

  /** A file to compress: the size its entry has, and the bytes its reader yields. */
  datatype Source = Source(path: string, size: nat, reader: seq<byte>) {
    predicate Complete() { size <= |reader| }

    /** What a buffer of its size holds once it was read, as far as that goes. */
    function Buffer(): (r: seq<byte>)
      ensures |r| == size && (Complete() ==> r == reader[..size])
    {
      if size <= |reader| then reader[..size] else reader + Zeros(size - |reader|)
    }
  }

  /** All but the last are whole blocks. */
  ghost predicate Aligned(bs: nat, raws: seq<seq<byte>>)
    requires bs > 0
  {
    forall k :: 0 <= k < |raws| - 1 ==> |raws[k]| % bs == 0
  }

  /** Stores packed spans in stream order. */
  method StoreAll(store: Store, ghost profile: Profile, spans: seq<PackedSpan>) returns (extents: seq<Extent>)
    requires store.Valid() && profile.Valid(store.blockSize) && AllSpansOk(store.blockSize, profile, spans)
    modifies store
    ensures store.Valid() && old(store.spool) <= store.spool
    ensures StoredAs(store.blockSize, store.spool, extents, RawsOf(spans))
    ensures (store.State(), extents) == PutAll(store.blockSize, store.dedupes, old(store.State()), spans)
  {
    hide ReadsBack, SpanOk, PutSpan, Store.Counted, Store.Balanced, Store.Readable;
    extents := [];
    var i := 0;
    while i < |spans|
      invariant 0 <= i <= |spans| && store.Valid() && old(store.spool) <= store.spool
      invariant StoredAs(store.blockSize, store.spool, extents, RawsOf(spans[..i]))
      invariant (store.State(), extents) == PutAll(store.blockSize, store.dedupes, old(store.State()), spans[..i])
    {
      ghost var before := store.spool;
      assert spans[i] in spans;
      var e := store.StoreSpan(profile, spans[i]);
      StoredAsSnoc(store.blockSize, before, store.spool, extents, RawsOf(spans[..i]), e, spans[i].raw);
      assert RawsOf(spans[..i + 1]) == RawsOf(spans[..i]) + [spans[i].raw];
      PutAllSnoc(store.blockSize, store.dedupes, old(store.State()), spans[..i], spans[i]);
      assert spans[..i + 1] == spans[..i] + [spans[i]];
      extents := extents + [e];
      i := i + 1;
    }
    assert spans[..i] == spans;
  }

  /** The store and the extents are what storing these spans in order gives. */
  ghost predicate StoredInOrder(store: Store, start: SpoolState, extents: seq<Extent>, spans: seq<PackedSpan>)
    reads store
  {
    store.Valid() && (store.State(), extents) == PutAll(store.blockSize, store.dedupes, start, spans)
    && StoredAs(store.blockSize, store.spool, extents, RawsOf(spans))
  }

  lemma {:induction false} StoredNothing(store: Store)
    requires store.Valid()
    ensures StoredInOrder(store, store.State(), [], [])
  {
  }

  /** A partition of content is content, cut at block boundaries. */
  lemma {:induction false} PartitionRaws(bs: nat, profile: Profile, spans: seq<PackedSpan>, content: seq<byte>)
    requires bs > 0 && Partitions(bs, profile, true, spans, content)
    ensures Flatten(RawsOf(spans)) == content && Aligned(bs, RawsOf(spans))
  {
    hide SpanOk;
    RawsFlatten(spans);
  }

  /** Compresses a file that fits in memory: packs it as one final segment, then
      stores the spans in order. */
  method CompressBuffer(worker: Worker, store: Store, content: seq<byte>, profile: Profile)
    returns (extents: seq<Extent>, spans: seq<PackedSpan>, ok: bool)
    requires worker.Valid() && store.Valid() && worker.blockSize == store.blockSize && worker.Serves(profile)
    modifies worker, worker.encoder, worker.encoder.head, worker.encoder.chain, worker.probe, worker.kept, store
    ensures store.Valid() && old(store.spool) <= store.spool
    ensures ok ==> StoredInOrder(store, old(store.State()), extents, spans)
    ensures ok ==> store.blockSize > 0 && Partitions(store.blockSize, profile, true, spans, content)
    ensures ok ==> worker.AllChosen(content, profile, true, spans)
    ensures ok || worker.FailsIn(content)
  {
    hide ReadsBack, SpanOk, worker.FailsIn, Worker.AllChosen;
    extents := [];
    spans, ok := worker.PackSegment(content, profile, true);
    if !ok { return; }
    extents := StoreAll(store, profile, spans);
  }

  // ---- streaming -------------------------------------------------------------------------

  /** The packed spans cover the reader's bytes up to the window, which reaches to fed;
      the stream is size bytes long. */
  ghost predicate Streaming(bs: nat, profile: Profile, reader: seq<byte>, size: nat, fed: nat, window: seq<byte>, spans: seq<PackedSpan>)
    requires bs > 0
  {
    |window| <= fed <= size && fed <= |reader| && |window| <= profile.maxExtentSize && window == reader[fed - |window|..fed]
    && Raws(spans) == reader[..fed - |window|] && AllSpansOk(bs, profile, spans)
    && ((fed - |window|) % bs == 0 || (fed == size && window == []))
    && forall k :: 0 <= k < |spans| ==> |spans[k].raw| % bs == 0 || (k == |spans| - 1 && fed == size && window == [])
  }

  /** How far the window reaches once refilled. */
  function Refill(max: nat, size: nat, fed: nat, have: nat): (r: nat)
    requires have <= fed <= size
  {
    Max(fed, Min(fed - have + max, size))
  }

  lemma {:induction false} Refilled(bs: nat, profile: Profile, reader: seq<byte>, size: nat, fed: nat, window: seq<byte>, spans: seq<PackedSpan>)
    requires profile.Valid(bs) && Streaming(bs, profile, reader, size, fed, window, spans)
    requires (fed < size || |window| > 0) && Refill(profile.maxExtentSize, size, fed, |window|) <= |reader|
    ensures var to := Refill(profile.maxExtentSize, size, fed, |window|);
      var refilled := window + reader[fed..to];
      Streaming(bs, profile, reader, size, to, refilled, spans) && |refilled| > 0 && (to == size || |refilled| % bs == 0)
      && to == Min(to - |refilled| + profile.maxExtentSize, size)
  {
    hide SpanOk, Raws;
    var to := Refill(profile.maxExtentSize, size, fed, |window|);
    assert window + reader[fed..to] == reader[fed - |window|..to];
  }

  lemma {:induction false} CutSpan(bs: nat, profile: Profile, reader: seq<byte>, size: nat, fed: nat, window: seq<byte>,
                                   spans: seq<PackedSpan>, s: PackedSpan)
    requires bs > 0 && Streaming(bs, profile, reader, size, fed, window, spans) && SpanOk(bs, profile, s)
    requires s.raw <= window && Cut(bs, |window|, fed == size, |s.raw|)
    ensures Streaming(bs, profile, reader, size, fed, window[|s.raw|..], spans + [s])
  {
    hide SpanOk;
    var at, n := fed - |window|, |s.raw|;
    SumMod(at, n, bs);
    RawsSnoc(spans, s);
    hide Raws;
    assert s.raw == window[..n];
    SliceTwice(reader, at, fed, 0, n);
    SliceTwice(reader, at, fed, n, |window|);
    assert window[0..n] == window[..n] && window[n..|window|] == window[n..];
    assert reader[..at] + reader[at..at + n] == reader[..at + n];
  }

  lemma {:induction false} NothingIn(bs: nat, reader: seq<byte>)
    requires bs > 0
    ensures 0 % bs == 0 && reader[0..0] == [] == reader[..0] && Raws([]) == []
  {
    DivUnique(0, bs, 0, 0);
  }

  lemma {:induction false} StreamStart(bs: nat, profile: Profile, reader: seq<byte>, size: nat)
    requires bs > 0
    ensures Streaming(bs, profile, reader, size, 0, [], [])
  {
    hide SpanOk;
    NothingIn(bs, reader);
  }

  /** The window of a stream is what a span of the whole file is chosen from. */
  lemma {:induction false} ChosenInStream(worker: Worker, profile: Profile, reader: seq<byte>, size: nat, fed: nat, window: seq<byte>,
                                          spans: seq<PackedSpan>, s: PackedSpan)
    requires worker.blockSize > 0 && Streaming(worker.blockSize, profile, reader, size, fed, window, spans) && size <= |reader|
    requires fed == Min(fed - |window| + profile.maxExtentSize, size)
    requires worker.ChosenAt(window, 0, profile, fed == size, |s.raw|, s.comp)
    ensures |Raws(spans)| <= size && worker.ChosenAt(reader[..size], |Raws(spans)|, profile, true, |s.raw|, s.comp)
  {
    hide SpanOk, Raws, Worker.Chosen, Worker.Squeezed;
    assert worker.Window(window, 0, profile.maxExtentSize) == window;
    assert worker.Window(reader[..size], fed - |window|, profile.maxExtentSize) == window;
  }

  /** A finished stream is partitioned. */
  lemma {:induction false} Streamed(bs: nat, profile: Profile, reader: seq<byte>, size: nat, spans: seq<PackedSpan>)
    requires bs > 0 && Streaming(bs, profile, reader, size, size, [], spans)
    ensures size <= |reader| && Partitions(bs, profile, true, spans, reader[..size])
  {
    hide SpanOk;
  }

  lemma {:induction false} StreamBounds(bs: nat, profile: Profile, reader: seq<byte>, size: nat, fed: nat, window: seq<byte>, spans: seq<PackedSpan>)
    requires bs > 0 && Streaming(bs, profile, reader, size, fed, window, spans)
    ensures |window| <= fed <= size && fed <= |reader| && |window| <= profile.maxExtentSize && window == reader[fed - |window|..fed]
  {
  }

  /** Packs and stores the front of the window. */
  method CompressNext(worker: Worker, store: Store, window: seq<byte>, profile: Profile, final: bool, ratio: real,
                      ghost start: SpoolState, extents: seq<Extent>, ghost spans: seq<PackedSpan>)
    returns (more: seq<Extent>, s: PackedSpan, newRatio: real, ok: bool)
    requires worker.Valid() && worker.blockSize == store.blockSize && worker.Serves(profile)
    requires 0 < |window| && (final || |window| % store.blockSize == 0)
    requires StoredInOrder(store, start, extents, spans)
    modifies worker, worker.encoder, worker.encoder.head, worker.encoder.chain, worker.probe, worker.kept, store
    ensures worker.Valid() && {worker.probe, worker.kept} == old({worker.probe, worker.kept})
    ensures worker.encoder.chain == old(worker.encoder.chain) || fresh(worker.encoder.chain)
    ensures store.Valid() && old(store.spool) <= store.spool
    ensures ok ==> s.raw <= window && Cut(store.blockSize, |window|, final, |s.raw|) && SpanOk(store.blockSize, profile, s)
    ensures ok ==> StoredInOrder(store, start, more, spans + [s])
    ensures ok ==> worker.ChosenAt(window, 0, profile, final, |s.raw|, s.comp)
    ensures ok || worker.FailsIn(window)
  {
    hide ReadsBack, SoundCompressor, worker.FailsIn, Worker.ChosenAt, PutAll, PutSpan, StoredAs, SpanOk, Store.Balanced, Raws;
    var span, comp;
    DivUnique(0, store.blockSize, 0, 0);
    span, comp, newRatio, ok := worker.PackNext(window, 0, profile, final, ratio);
    more, s := extents, PackedSpan([], [], false);
    if !ok { return; }
    assert window[0..0 + span] == window[..span];
    s := PackedSpan(window[..span], comp, false);
    ghost var before := store.spool;
    ghost var st := store.State();
    var e := store.StoreSpan(profile, s);
    StoredAsSnoc(store.blockSize, before, store.spool, extents, RawsOf(spans), e, s.raw);
    assert RawsOf(spans + [s]) == RawsOf(spans) + [s.raw];
    PutAllSnoc(store.blockSize, store.dedupes, start, spans, s);
    more := extents + [e];
  }

  /** Compresses a stream of size bytes through a window of at most one extent, storing
      each span as it is packed.  A reader that ends early is an error. */
  method CompressStream(worker: Worker, store: Store, reader: seq<byte>, size: nat, profile: Profile)
    returns (extents: seq<Extent>, ghost spans: seq<PackedSpan>, ok: bool)
    requires worker.Valid() && store.Valid() && worker.blockSize == store.blockSize && worker.Serves(profile)
    modifies worker, worker.encoder, worker.encoder.head, worker.encoder.chain, worker.probe, worker.kept, store
    ensures store.Valid() && old(store.spool) <= store.spool
    ensures ok ==> StoredInOrder(store, old(store.State()), extents, spans)
    ensures ok ==> size <= |reader| && store.blockSize > 0 && Partitions(store.blockSize, profile, true, spans, reader[..size])
    ensures ok ==> size <= |reader| && worker.AllChosen(reader[..size], profile, true, spans)
    ensures ok || |reader| < size || worker.FailsIn(reader[..size])
  {
    hide ReadsBack, Streaming, SoundCompressor, worker.FailsIn, StoredInOrder, PutAll, SpanOk, Partitions, Worker.ChosenAt, Store.Counted;
    extents, spans, ok := [], [], true;
    var bs, max := store.blockSize, profile.maxExtentSize;
    var window: seq<byte> := [];
    var fed := 0;
    var ratio := 0.5;
    StreamStart(bs, profile, reader, size);
    StoredNothing(store);
    while fed < size || |window| > 0
      invariant |window| <= fed <= size && Streaming(bs, profile, reader, size, fed, window, spans)
      invariant worker.Valid() && {worker.probe, worker.kept} == old({worker.probe, worker.kept})
      invariant worker.encoder.chain == old(worker.encoder.chain) || fresh(worker.encoder.chain)
      invariant store.Valid() && old(store.spool) <= store.spool
      invariant StoredInOrder(store, old(store.State()), extents, spans)
      invariant size <= |reader| ==> worker.AllChosen(reader[..size], profile, true, spans)
      decreases size - (fed - |window|)
    {
      StreamBounds(bs, profile, reader, size, fed, window, spans);
      var to := Refill(max, size, fed, |window|);
      if |reader| < to { return extents, spans, false; }
      Refilled(bs, profile, reader, size, fed, window, spans);
      window, fed := window + reader[fed..to], to;
      StreamBounds(bs, profile, reader, size, fed, window, spans);
      var s;
      extents, s, ratio, ok := CompressNext(worker, store, window, profile, fed == size, ratio, old(store.State()), extents, spans);
      if !ok {
        if size <= |reader| {
          SliceTwice(reader, 0, size, fed - |window|, fed);
          assert reader[0..size] == reader[..size];
          worker.FailsInside(reader[..size], fed - |window|, fed);
        }
        return;
      }
      if size <= |reader| {
        ChosenInStream(worker, profile, reader, size, fed, window, spans, s);
        worker.ChosenNext(reader[..size], profile, true, spans, s);
      }
      CutSpan(bs, profile, reader, size, fed, window, spans, s);
      spans := spans + [s];
      window := window[|s.raw|..];
    }
    Streamed(bs, profile, reader, size, spans);
  }
}
