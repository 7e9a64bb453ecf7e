/**
 Packing a stream in parallel segments.  Workers finish in any order; results are
 collected in stream order, so extents, spool and dedupe come out as if one worker
 had packed the segments one after another.
 */
module StreamPacker {
  import opened Bytes
  import opened SpanPacker
  import opened Spool
  import opened ZFile

  const SEGMENT := 0x80_0000   // 8 MiB, the unit of parallel packing

  /** A segment of the stream; final says that the stream ends with it. */
  datatype Segment = Segment(bytes: seq<byte>, final: bool)

  /** What comes of each job: the spans of its segment, or an error.  Two jobs may come
      out differently even on equal segments, so any behaviour of the workers is a
      packing; one worker's is, by its contract, sound. */
  type Packing = (nat, Segment) -> Option<seq<PackedSpan>>

  ghost predicate SoundPacking(bs: nat, profile: Profile, pack: Packing)
    requires bs > 0
  {
    forall k: nat, seg: Segment :: SoundSegment(bs, profile, seg, pack(k, seg))
  }

  ghost predicate SoundSegment(bs: nat, profile: Profile, seg: Segment, r: Option<seq<PackedSpan>>)
    requires bs > 0
  {
    r.Some? && (seg.final || |seg.bytes| % bs == 0) ==> Partitions(bs, profile, seg.final, r.value, seg.bytes)
  }

  /** A worker packs a segment: a sound result, or an error that comes from the fast
      compressor failing on a stretch of that segment. */
  method PackJob(worker: Worker, profile: Profile, seg: Segment) returns (r: Option<seq<PackedSpan>>)
    requires worker.Valid() && worker.Serves(profile) && (seg.final || |seg.bytes| % worker.blockSize == 0)
    modifies worker, worker.encoder, worker.encoder.head, worker.encoder.chain, worker.probe, worker.kept
    ensures worker.Valid() && SoundSegment(worker.blockSize, profile, seg, r)
    ensures r.Some? ==> worker.AllChosen(seg.bytes, profile, seg.final, r.value)
    ensures r.None? ==> worker.FailsIn(seg.bytes)
  {
    hide Partitions, worker.FailsIn, Worker.AllChosen;
    var spans, ok := worker.PackSegment(seg.bytes, profile, seg.final);
    r := if ok then Some(spans) else None;
  }

  /** The packing that gives spans for one segment and fails on every other. */
  function Only(seg: Segment, spans: Option<seq<PackedSpan>>): (pack: Packing) {
    (k, other) => if other == seg then spans else None
  }

  /** One worker streams a large file through its window.  What comes of it is what a
      sound packing gives for the file as a single segment, stored in order; it fails
      for a short reader or for the compressor alone. */
  method PackWindowed(worker: Worker, store: Store, source: Source, profile: Profile)
    returns (extents: seq<Extent>, ghost pack: Packing, ok: bool)
    requires worker.Valid() && store.Valid() && worker.blockSize == store.blockSize && worker.Serves(profile)
    modifies worker, worker.encoder, worker.encoder.head, worker.encoder.chain, worker.probe, worker.kept, store
    ensures store.blockSize > 0 && SoundPacking(store.blockSize, profile, pack)
    ensures ok <==> source.Complete() && pack(0, Segment(source.Buffer(), true)).Some?
    ensures ok ==> store.Valid() && StoredInOrder(store, old(store.State()), extents, pack(0, Segment(source.Buffer(), true)).value)
    ensures ok || !source.Complete() || worker.FailsIn(source.Buffer())
  {
    hide Partitions, worker.FailsIn, PutAll, StoredAs;
    ghost var spans;
    extents, spans, ok := CompressStream(worker, store, source.reader, source.size, profile);
    pack := Only(Segment(source.Buffer(), true), if ok then Some(spans) else None);
  }

  // ---- packing one segment after another -----------------------------------------------

  /** The stream cut into full segments, and a final one for what is left. */
  function StreamSegments(s: seq<byte>): (r: seq<Segment>) {
    if s == [] then []
    else if |s| < SEGMENT then [Segment(s, true)]
    else [Segment(s[..SEGMENT], false)] + StreamSegments(s[SEGMENT..])
  }

  function BytesOf(segs: seq<Segment>): (r: seq<byte>) {
    if segs == [] then [] else BytesOf(segs[..|segs| - 1]) + segs[|segs| - 1].bytes
  }

  /** Segments packed in order; an error anywhere fails the stream. */
  function PackAll(pack: Packing, segs: seq<Segment>): (r: Option<seq<PackedSpan>>) {
    if segs == [] then Some([])
    else Join(PackAll(pack, segs[..|segs| - 1]), pack(|segs| - 1, segs[|segs| - 1]))
  }

  function Join(a: Option<seq<PackedSpan>>, b: Option<seq<PackedSpan>>): (r: Option<seq<PackedSpan>>) {
    if a.Some? && b.Some? then Some(a.value + b.value) else None
  }

  lemma {:induction false} PackAllSnoc(pack: Packing, segs: seq<Segment>, seg: Segment)
    ensures PackAll(pack, segs + [seg]) == Join(PackAll(pack, segs), pack(|segs|, seg))
    ensures BytesOf(segs + [seg]) == BytesOf(segs) + seg.bytes
  {
    assert (segs + [seg])[..|segs|] == segs;
  }

  /** A failed segment fails every stream it is part of. */
  lemma {:induction false} PackAllFails(pack: Packing, segs: seq<Segment>, more: seq<Segment>)
    requires PackAll(pack, segs).None?
    ensures PackAll(pack, segs + more).None?
    decreases |more|
  {
    if more == [] {
      assert segs + more == segs;
    } else {
      var last := |more| - 1;
      PackAllFails(pack, segs, more[..last]);
      PackAllSnoc(pack, segs + more[..last], more[last]);
      assert segs + more == (segs + more[..last]) + [more[last]];
    }
  }

  predicate Full(seg: Segment) { |seg.bytes| == SEGMENT && !seg.final }

  /** Full segments and a short rest are how the stream is cut. */
  lemma {:induction false} CutIsUnique(segs: seq<Segment>, rest: seq<byte>)
    requires (forall seg <- segs :: Full(seg)) && |rest| < SEGMENT
    ensures StreamSegments(BytesOf(segs) + rest) == segs + StreamSegments(rest)
    decreases |segs|
  {
    if segs == [] {
      assert [] + rest == rest;
    } else {
      var seg := segs[0];
      assert seg in segs;
      BytesFront(segs);
      CutIsUnique(segs[1..], rest);
      var s := BytesOf(segs) + rest;
      assert s[..SEGMENT] == seg.bytes && s[SEGMENT..] == BytesOf(segs[1..]) + rest;
      assert segs == [seg] + segs[1..];
      assert [seg] + (segs[1..] + StreamSegments(rest)) == segs + StreamSegments(rest);
    }
  }

  lemma {:induction false} BytesFront(segs: seq<Segment>)
    requires segs != []
    ensures BytesOf(segs) == segs[0].bytes + BytesOf(segs[1..])
    decreases |segs|
  {
    var last := |segs| - 1;
    if last > 0 {
      BytesFront(segs[..last]);
      assert segs[..last][1..] == segs[1..][..last - 1];
      assert (segs[0].bytes + BytesOf(segs[1..last])) + segs[last].bytes == segs[0].bytes + (BytesOf(segs[1..last]) + segs[last].bytes);
      assert segs[1..][..last - 1] == segs[1..last];
    } else {
      assert segs[..0] == [] && segs[1..] == [];
      assert [] + segs[0].bytes == segs[0].bytes == segs[0].bytes + [];
    }
  }

  /** A stream whose front is whole segments is cut there. */
  lemma {:induction false} SegmentsAppend(front: seq<byte>, more: seq<byte>)
    requires |front| % SEGMENT == 0
    ensures StreamSegments(front + more) == StreamSegments(front) + StreamSegments(more)
    decreases |front|
  {
    if front == [] {
      assert front + more == more;
    } else {
      var rest := front[SEGMENT..];
      SegmentsAppend(rest, more);
      assert (front + more)[..SEGMENT] == front[..SEGMENT] && (front + more)[SEGMENT..] == rest + more;
    }
  }

  lemma {:induction false} FullSize(segs: seq<Segment>)
    requires forall seg <- segs :: Full(seg)
    ensures |BytesOf(segs)| == SEGMENT * |segs|
    decreases |segs|
  {
    if segs != [] {
      assert segs[|segs| - 1] in segs;
      FullSize(segs[..|segs| - 1]);
    }
  }

  // ---- what sequential packing covers ----------------------------------------------------

  lemma {:induction false} RawsAppend(a: seq<PackedSpan>, b: seq<PackedSpan>)
    ensures Raws(a + b) == Raws(a) + Raws(b)
    decreases |b|
  {
    if b == [] {
      assert a + b == a;
      assert Raws(a) + [] == Raws(a);
    } else {
      hide Raws;
      var front, s := b[..|b| - 1], b[|b| - 1];
      RawsAppend(a, front);
      RawsSnoc(front, s);
      RawsSnoc(a + front, s);
      assert b == front + [s] && a + b == (a + front) + [s];
      assert (Raws(a) + Raws(front)) + s.raw == Raws(a) + (Raws(front) + s.raw);
    }
  }

  lemma {:induction false} PartitionsAppend(bs: nat, profile: Profile, final: bool, a: seq<PackedSpan>, b: seq<PackedSpan>,
                                            bufA: seq<byte>, bufB: seq<byte>)
    requires bs > 0 && Partitions(bs, profile, false, a, bufA) && Partitions(bs, profile, final, b, bufB)
    ensures Partitions(bs, profile, final, a + b, bufA + bufB)
  {
    hide SpanOk, Raws;
    RawsAppend(a, b);
    var all := a + b;
    forall k | 0 <= k < |all| ensures |all[k].raw| % bs == 0 || (final && k == |all| - 1) {
      if k < |a| { assert all[k] == a[k]; } else { assert all[k] == b[k - |a|]; }
    }
  }

  /** Full segments, then possibly a final one. */
  ghost predicate Cuttable(segs: seq<Segment>) {
    forall i :: 0 <= i < |segs| ==> Full(segs[i]) || (i == |segs| - 1 && segs[i].final)
  }

  predicate Ends(segs: seq<Segment>) { segs != [] && segs[|segs| - 1].final }

  /** The spans of all segments cover the stream, cut at block boundaries. */
  lemma {:induction false} PackAllCovers(bs: nat, profile: Profile, pack: Packing, segs: seq<Segment>)
    requires bs > 0 && SEGMENT % bs == 0 && SoundPacking(bs, profile, pack) && Cuttable(segs)
    requires PackAll(pack, segs).Some?
    ensures Partitions(bs, profile, Ends(segs), PackAll(pack, segs).value, BytesOf(segs))
  {
    hide Partitions;
    if segs == [] {
      NothingPacked(bs, profile);
    } else {
      var front, seg := segs[..|segs| - 1], segs[|segs| - 1];
      PackAllCovers(bs, profile, pack, front);
      var r := pack(|front|, seg);
      assert SoundSegment(bs, profile, seg, r);
      PartitionsAppend(bs, profile, seg.final, PackAll(pack, front).value, r.value, BytesOf(front), seg.bytes);
    }
  }

  lemma {:induction false} NothingPacked(bs: nat, profile: Profile)
    requires bs > 0
    ensures Partitions(bs, profile, false, [], [])
  {
  }

  // ---- storing what was packed ------------------------------------------------------------

  lemma {:induction false} StoredAsAppend(bs: nat, spool: seq<byte>, extents: seq<Extent>, raws: seq<seq<byte>>,
                                          moreExtents: seq<Extent>, moreRaws: seq<seq<byte>>)
    requires StoredAs(bs, spool, extents, raws) && StoredAs(bs, spool, moreExtents, moreRaws)
    ensures StoredAs(bs, spool, extents + moreExtents, raws + moreRaws)
  {
    hide ReadsBack;
  }

  /** Stores the spans of the next segment. */
  method StoreNext(store: Store, ghost profile: Profile, ghost start: SpoolState, ghost before: seq<PackedSpan>,
                   extents: seq<Extent>, spans: seq<PackedSpan>)
    returns (all: seq<Extent>)
    requires StoredInOrder(store, start, extents, before)
    requires profile.Valid(store.blockSize) && AllSpansOk(store.blockSize, profile, spans)
    modifies store
    ensures StoredInOrder(store, start, all, before + spans)
  {
    hide StoredAs, PutAll, SpanOk, ReadsBack, Store.Balanced;
    ghost var spool0 := store.spool;
    var more := StoreAll(store, profile, spans);
    PutAllAppend(store.blockSize, store.dedupes, start, before, spans);
    StoredAsGrows(store.blockSize, spool0, store.spool, extents, RawsOf(before));
    StoredAsAppend(store.blockSize, store.spool, extents, RawsOf(before), more, RawsOf(spans));
    assert RawsOf(before + spans) == RawsOf(before) + RawsOf(spans);
    all := extents + more;
  }

  // ---- the packer ---------------------------------------------------------------------------

  /** A submitted segment and, once its worker is done, what came of it. */
  datatype Job = Job(seg: Segment, result: Option<Option<seq<PackedSpan>>>)

  function SegsOf(queue: seq<Job>): (r: seq<Segment>)
    ensures |r| == |queue|
  {
    seq(|queue|, i requires 0 <= i < |queue| => queue[i].seg)
  }

  class StreamPacker {
    const pack: Packing
    const workers: nat
    const store: Store
    ghost const profile: Profile
    ghost const start: SpoolState
    var tail: seq<byte>
    var queue: seq<Job>
    var taken: nat              // jobs taken off the queue
    var extents: seq<Extent>
    ghost var collected: seq<Segment>
    ghost var written: seq<byte>

    ghost predicate Valid()
      reads this`queue, this`taken, this`extents, this`collected, store
    {
      workers > 0 && taken == |collected| && store.Valid() && profile.Valid(store.blockSize) && SEGMENT % store.blockSize == 0
      && SoundPacking(store.blockSize, profile, pack) && |queue| <= workers
      && Cuttable(Submitted()) && Queued() && Stored()
    }

    /** Finished jobs hold what their worker made of them. */
    ghost predicate Queued()
      reads this`queue, this`taken
    {
      forall i :: 0 <= i < |queue| ==> queue[i].result == None || queue[i].result == Some(pack(taken + i, queue[i].seg))
    }

    ghost function Submitted(): (r: seq<Segment>)
      reads this`collected, this`queue
    {
      collected + SegsOf(queue)
    }

    /** What was collected is stored as if nothing ran in parallel. */
    ghost predicate Stored()
      reads this`collected, this`extents, store
    {
      var packed := PackAll(pack, collected);
      packed.Some? && StoredInOrder(store, start, extents, packed.value)
    }

    /** Everything written is in a full segment that was submitted, or in the tail. */
    ghost predicate Feeding()
      reads this
    {
      (forall seg <- Submitted() :: Full(seg)) && BytesOf(Submitted()) + tail == written && |tail| < SEGMENT
    }

    constructor (store: Store, ghost profile: Profile, pack: Packing, workers: nat)
      requires store.Valid() && profile.Valid(store.blockSize) && SEGMENT % store.blockSize == 0
      requires workers > 0 && SoundPacking(store.blockSize, profile, pack)
      ensures Valid() && Feeding() && written == [] && extents == [] && start == store.State()
      ensures this.store == store && this.pack == pack && this.profile == profile
    {
      this.store, this.profile, this.pack, this.workers := store, profile, pack, workers;
      tail, queue, taken, extents := [], [], 0, [];
      collected, written, start := [], [], store.State();
    }

    /** Any of the running workers may finish at any time. */
    method Interleave()
      requires Valid()
      modifies this`queue
      ensures Valid() && SegsOf(queue) == old(SegsOf(queue))
    {
      hide Stored, SoundPacking, Store.Counted;
      var done: nat -> bool := *;
      var q, f, n := queue, pack, taken;
      queue := seq(|q|, i requires 0 <= i < |q| => if done(i) then Job(q[i].seg, Some(f(n + i, q[i].seg))) else q[i]);
      assert SegsOf(queue) == SegsOf(q);
    }

    /** Waits for the oldest job and takes it off the queue. */
    method Receive() returns (seg: Segment, spans: Option<seq<PackedSpan>>)
      requires Valid() && queue != []
      modifies this`queue, this`taken
      ensures spans == pack(|collected|, seg) && old(Submitted()) == (collected + [seg]) + SegsOf(queue)
      ensures |queue| == |old(queue)| - 1 && taken == |collected| + 1 && Queued()
      ensures spans.Some? ==> AllSpansOk(store.blockSize, profile, spans.value)
    {
      hide Stored, AllSpansOk, SoundPacking, Store.Counted;
      Interleave();
      seg := queue[0].seg;
      spans := if queue[0].result.Some? then queue[0].result.value else pack(taken, seg);
      ghost var rest := SegsOf(queue)[1..];
      assert Submitted() == (collected + [seg]) + rest;
      assert ((collected + [seg]) + rest)[|collected|] == seg;
      if spans.Some? { SegmentSpansOk(store.blockSize, profile, pack, Submitted(), |collected|); }
      queue, taken := queue[1..], taken + 1;
      assert SegsOf(queue) == rest;
    }

    /** Stores the spans of the oldest job. */
    method CollectOne() returns (ok: bool)
      requires Valid() && queue != []
      modifies this`queue, this`taken, this`extents, this`collected, store
      ensures ok ==> Valid() && Submitted() == old(Submitted()) && |queue| == |old(queue)| - 1
      ensures !ok ==> PackAll(pack, old(Submitted())).None?
    {
      hide StoredInOrder, AllSpansOk, SoundPacking, Cuttable, Queued;
      var seg, spans := Receive();
      PackAllSnoc(pack, collected, seg);
      if spans.None? {
        PackAllFails(pack, collected + [seg], SegsOf(queue));
        return false;
      }
      ok := true;
      extents := StoreNext(store, profile, start, PackAll(pack, collected).value, extents, spans.value);
      collected := collected + [seg];
      InOrderValid(store, start, extents, PackAll(pack, collected).value);
    }

    lemma {:induction false} InOrderValid(store: Store, start: SpoolState, extents: seq<Extent>, spans: seq<PackedSpan>)
      requires StoredInOrder(store, start, extents, spans)
      ensures store.Valid()
    {
    }

    /** Hands the tail to a worker, first making room in the queue. */
    method Submit(final: bool) returns (ok: bool)
      requires Valid() && Cuttable(Submitted() + [Segment(tail, final)])
      modifies this, store
      ensures written == old(written)
      ensures ok ==> Valid() && tail == [] && Submitted() == old(Submitted()) + [Segment(old(tail), final)]
      ensures !ok ==> PackAll(pack, old(Submitted())).None?
    {
      hide Stored, Cuttable, SoundPacking, Store.Counted, Store.Balanced, Store.Readable;
      ok := true;
      if |queue| >= workers {
        ok := CollectOne();
        if !ok { return; }
      }
      var job := Job(Segment(tail, final), None);
      ghost var before := SegsOf(queue);
      queue := queue + [job];
      assert SegsOf(queue) == before + [job.seg];
      assert Submitted() == (collected + before) + [job.seg];
      tail := [];
    }

    lemma {:induction false} FullFollows(segs: seq<Segment>, seg: Segment)
      requires (forall g <- segs :: Full(g)) && (Full(seg) || seg.final)
      ensures Cuttable(segs + [seg])
    {
    }

    /** Submitting the next full segment. */
    method SubmitFull() returns (ok: bool)
      requires Valid() && (forall seg <- Submitted() :: Full(seg)) && |tail| == SEGMENT
      requires BytesOf(Submitted()) + tail == written
      modifies this, store
      ensures written == old(written)
      ensures ok ==> Valid() && Feeding() && tail == []
      ensures !ok ==> PackAll(pack, old(Submitted())).None?
    {
      hide Valid, Cuttable, PackAll;
      FullFollows(Submitted(), Segment(tail, false));
      PackAllSnoc(pack, Submitted(), Segment(tail, false));
      ok := Submit(false);
      if ok { assert BytesOf(Submitted()) + [] == BytesOf(Submitted()); }
    }

    /** Takes in more of the stream, handing on every segment it completes. */
    method Write(buf: seq<byte>) returns (n: nat, ok: bool)
      requires Valid() && Feeding()
      modifies this, store
      ensures n <= |buf| && (ok ==> n == |buf|)
      ensures ok ==> Valid() && Feeding() && written == old(written) + buf
      ensures !ok ==> Unpackable(old(written) + buf[..n])
    {
      hide Valid, Unpackable;
      n, ok := 0, true;
      assert buf[..0] == [];
      while n < |buf|
        invariant n <= |buf| && ok && Valid() && Feeding() && written == old(written) + buf[..n]
      {
        var take := Min(|buf| - n, SEGMENT - |tail|);
        ghost var w := written;
        assert (old(written) + buf[..n]) + buf[n..n + take] == old(written) + buf[..n + take];
        tail := tail + buf[n..n + take];
        written := written + buf[n..n + take];
        assert BytesOf(Submitted()) + tail == written;
        n := n + take;
        if |tail| == SEGMENT {
          FailsLater(Submitted(), tail);
          ok := SubmitFull();
          if !ok { return; }
        }
      }
      assert buf[..n] == buf;
    }

    /** Takes size bytes from a reader that holds the given bytes.  A short reader is
        an error; the segments completed before it stay taken in. */
    method ReadFull(reader: seq<byte>, size: nat) returns (n: nat, ok: bool)
      requires Valid() && Feeding()
      modifies this, store
      ensures n <= |reader| && n <= size && (ok ==> n == size)
      ensures ok ==> Valid() && Feeding() && written == old(written) + reader[..n]
      ensures !ok ==> (|reader| < size && Valid() && Feeding() && written == old(written) + reader[..n])
                      || Unpackable(old(written) + reader[..n])
    {
      hide Valid, Unpackable;
      n, ok := 0, true;
      assert reader[..0] == [];
      while n < size
        invariant n <= size && n <= |reader| && ok && Valid() && Feeding() && written == old(written) + reader[..n]
      {
        var take := Min(size - n, SEGMENT - |tail|);
        if |reader| < n + take { return n, false; }
        assert (old(written) + reader[..n]) + reader[n..n + take] == old(written) + reader[..n + take];
        tail := tail + reader[n..n + take];
        written := written + reader[n..n + take];
        assert BytesOf(Submitted()) + tail == written;
        n := n + take;
        if |tail| == SEGMENT {
          FailsLater(Submitted(), tail);
          ok := SubmitFull();
          if !ok { return; }
        }
      }
    }

    /** The stream so far, all of it in full segments, cannot be packed. */
    ghost predicate Unpackable(stream: seq<byte>) {
      |stream| % SEGMENT == 0 && PackAll(pack, StreamSegments(stream)).None?
    }

    /** Whatever follows, a stream with such a front cannot be packed. */
    lemma {:induction false} UnpackableStays(front: seq<byte>, more: seq<byte>)
      requires Unpackable(front)
      ensures PackAll(pack, StreamSegments(front + more)).None?
    {
      hide PackAll;
      SegmentsAppend(front, more);
      PackAllFails(pack, StreamSegments(front), StreamSegments(more));
    }

    /** A failure among the submitted segments fails the stream. */
    lemma {:induction false} FailsLater(segs: seq<Segment>, last: seq<byte>)
      requires (forall seg <- segs :: Full(seg)) && |last| == SEGMENT
      ensures PackAll(pack, segs).None? ==> Unpackable(BytesOf(segs) + last)
    {
      FullSize(segs);
      var seg := Segment(last, false);
      var all := segs + [seg];
      PackAllSnoc(pack, segs, seg);
      CutIsUnique(all, []);
      assert all + StreamSegments([]) == all;
      assert BytesOf(all) + [] == BytesOf(segs) + last;
      if PackAll(pack, segs).None? { PackAllFails(pack, segs, [seg]); }
    }

    /** Ends the stream.  The extents and the store are those of packing the whole
        stream segment by segment, and the extents cover it. */
    method Finish() returns (ok: bool)
      requires Valid() && Feeding()
      modifies this, store
      ensures written == old(written)
      ensures ok <==> PackAll(pack, StreamSegments(written)).Some?
      ensures ok ==> StoredInOrder(store, start, extents, PackAll(pack, StreamSegments(written)).value)
      ensures ok ==> Partitions(store.blockSize, profile, true, PackAll(pack, StreamSegments(written)).value, written)
    {
      hide Stored, Queued, Cuttable, SoundPacking, PackAll, BytesOf;
      ghost var all := StreamSegments(written);
      CutIsUnique(Submitted(), tail);
      CutCovers(Submitted(), tail);
      ok := true;
      if |tail| > 0 {
        FullFollows(Submitted(), Segment(tail, true));
        if PackAll(pack, Submitted()).None? { PackAllFails(pack, Submitted(), [Segment(tail, true)]); }
        ok := Submit(true);
        if !ok { return; }
      }
      assert Submitted() == all;
      ok := Drain();
      if ok { AllCollected(all); }
    }

    /** Collects everything that is still queued. */
    method Drain() returns (ok: bool)
      requires Valid()
      modifies this`queue, this`taken, this`extents, this`collected, store
      ensures ok ==> Valid() && queue == [] && collected == old(Submitted())
      ensures !ok ==> PackAll(pack, old(Submitted())).None?
    {
      hide Valid;
      ok := true;
      while queue != []
        invariant ok && Valid() && Submitted() == old(Submitted())
        decreases |queue|
      {
        ok := CollectOne();
        if !ok { return; }
      }
    }

    lemma {:induction false} CutCovers(segs: seq<Segment>, rest: seq<byte>)
      requires (forall seg <- segs :: Full(seg)) && |rest| < SEGMENT
      ensures BytesOf(segs + StreamSegments(rest)) == BytesOf(segs) + rest && Cuttable(segs + StreamSegments(rest))
    {
      if rest == [] {
        assert segs + [] == segs && BytesOf(segs) + [] == BytesOf(segs);
      } else {
        PackAllSnoc(pack, segs, Segment(rest, true));
        FullFollows(segs, Segment(rest, true));
      }
    }

    /** When nothing is left in the queue, all is stored, in order. */
    lemma {:induction false} AllCollected(all: seq<Segment>)
      requires Valid() && queue == [] && collected == all
      ensures PackAll(pack, all).Some? && StoredInOrder(store, start, extents, PackAll(pack, all).value)
      ensures Partitions(store.blockSize, profile, true, PackAll(pack, all).value, BytesOf(all))
    {
      hide StoredInOrder, SoundPacking, PackAll;
      assert Submitted() == all;
      PackAllCovers(store.blockSize, profile, pack, all);
    }
  }

  // ---- packing a stream of known size ------------------------------------------------------

  function SegmentCount(n: nat): (r: nat) { (n + SEGMENT - 1) / SEGMENT }

  function ParallelSegment(s: seq<byte>, i: nat): (r: Segment)
    requires i < SegmentCount(|s|)
  {
    Segment(s[i * SEGMENT..Min((i + 1) * SEGMENT, |s|)], i == SegmentCount(|s|) - 1)
  }

  function ParallelSegments(s: seq<byte>): (r: seq<Segment>)
    ensures |r| == SegmentCount(|s|)
  {
    seq(SegmentCount(|s|), i requires 0 <= i < SegmentCount(|s|) => ParallelSegment(s, i))
  }

  lemma {:induction false} ParallelCovers(s: seq<byte>, i: nat)
    requires i <= SegmentCount(|s|)
    ensures BytesOf(ParallelSegments(s)[..i]) == s[..Min(i * SEGMENT, |s|)]
    decreases i
  {
    if i > 0 {
      var segs := ParallelSegments(s);
      ParallelCovers(s, i - 1);
      assert segs[..i][..i - 1] == segs[..i - 1];
    }
  }

  lemma {:induction false} ParallelCuttable(s: seq<byte>)
    ensures Cuttable(ParallelSegments(s)) && BytesOf(ParallelSegments(s)) == s
  {
    ParallelCovers(s, SegmentCount(|s|));
    var segs := ParallelSegments(s);
    assert segs[..|segs|] == segs;
    assert s[..Min(SegmentCount(|s|) * SEGMENT, |s|)] == s;
  }

  /** Both packers cut a stream at the same places; only the last full segment of
      a stream of whole segments is final for one and not for the other. */
  lemma {:induction false} SameBoundaries(s: seq<byte>, i: nat)
    ensures |StreamSegments(s)| == SegmentCount(|s|)
    ensures i < SegmentCount(|s|) ==> StreamSegments(s)[i].bytes == ParallelSegment(s, i).bytes
    ensures i < SegmentCount(|s|) ==>
      (StreamSegments(s)[i].final == ParallelSegment(s, i).final <==> i < SegmentCount(|s|) - 1 || |s| % SEGMENT != 0)
    decreases |s|
  {
    if |s| >= SEGMENT {
      var rest := s[SEGMENT..];
      SameBoundaries(rest, if i > 0 then i - 1 else 0);
      assert SegmentCount(|s|) == SegmentCount(|rest|) + 1;
      if 0 < i < SegmentCount(|s|) {
        assert StreamSegments(s)[i] == StreamSegments(rest)[i - 1];
        assert rest[(i - 1) * SEGMENT..Min(i * SEGMENT, |rest|)] == s[i * SEGMENT..Min((i + 1) * SEGMENT, |s|)];
      }
    }
  }

  /** Packs all segments in parallel and stores them in order; after an error the
      rest is only drained.  A segment that cannot be read in full is an error, and no
      later one arrives. */
  method CompressParallel(store: Store, ghost profile: Profile, pack: Packing, s: Source)
    returns (extents: seq<Extent>, ok: bool)
    requires store.Valid() && profile.Valid(store.blockSize) && SEGMENT % store.blockSize == 0
    requires SoundPacking(store.blockSize, profile, pack)
    modifies store
    ensures ok <==> s.Complete() && PackAll(pack, ParallelSegments(s.Buffer())).Some?
    ensures ok ==> StoredInOrder(store, old(store.State()), extents, PackAll(pack, ParallelSegments(s.Buffer())).value)
    ensures ok ==> Partitions(store.blockSize, profile, true, PackAll(pack, ParallelSegments(s.Buffer())).value, s.Buffer())
  {
    hide SoundPacking, StoredInOrder, Partitions, BytesOf, Cuttable, Store.Valid, PackAll, ParallelSegments, Source.Buffer;
    var content := s.Buffer();
    var segs := ParallelSegments(content);
    ParallelCuttable(content);
    StoredNothing(store);
    extents, ok := [], true;
    var results: seq<Option<Option<seq<PackedSpan>>>> := seq(|segs|, _ => None);
    var idx := 0;
    assert segs[..0] == [];
    PackNone(pack);
    while idx < |segs|
      invariant 0 <= idx <= |segs| == |results| && ok == PackAll(pack, segs[..idx]).Some?
      invariant forall i :: 0 <= i < |segs| ==> results[i] == None || results[i] == Some(pack(i, segs[i]))
      invariant ok ==> StoredInOrder(store, old(store.State()), extents, PackAll(pack, segs[..idx]).value)
      invariant idx == |segs| ==> s.size <= |s.reader|
    {
      if |s.reader| < Min((idx + 1) * SEGMENT, s.size) { return extents, false; }
      results := SomeFinish(pack, segs, results);
      var spans := if results[idx].Some? then results[idx].value else pack(idx, segs[idx]);
      PackAllSnoc(pack, segs[..idx], segs[idx]);
      assert segs[..idx + 1] == segs[..idx] + [segs[idx]];
      if spans.None? { ok := false; }
      if ok { extents := StoreSegment(store, profile, old(store.State()), pack, segs, idx, extents, spans.value); }
      idx := idx + 1;
    }
    assert segs[..idx] == segs;
    if ok {
      PackAllCovers(store.blockSize, profile, pack, segs);
      PartitionsFinal(store.blockSize, profile, Ends(segs), PackAll(pack, segs).value, content);
    }
  }

  method StoreSegment(store: Store, ghost profile: Profile, ghost start: SpoolState, ghost pack: Packing,
                      ghost segs: seq<Segment>, ghost idx: nat, extents: seq<Extent>, spans: seq<PackedSpan>)
    returns (all: seq<Extent>)
    requires store.blockSize > 0 && profile.Valid(store.blockSize) && SEGMENT % store.blockSize == 0
    requires SoundPacking(store.blockSize, profile, pack) && Cuttable(segs) && idx < |segs| && pack(idx, segs[idx]) == Some(spans)
    requires PackAll(pack, segs[..idx]).Some? && StoredInOrder(store, start, extents, PackAll(pack, segs[..idx]).value)
    modifies store
    ensures PackAll(pack, segs[..idx + 1]).Some? && StoredInOrder(store, start, all, PackAll(pack, segs[..idx + 1]).value)
  {
    hide SoundPacking, StoredInOrder, Cuttable, AllSpansOk;
    PackAllSnoc(pack, segs[..idx], segs[idx]);
    assert segs[..idx + 1] == segs[..idx] + [segs[idx]];
    SegmentSpansOk(store.blockSize, profile, pack, segs, idx);
    all := StoreNext(store, profile, start, PackAll(pack, segs[..idx]).value, extents, spans);
  }

  /** Any workers may have finished since. */
  method SomeFinish(pack: Packing, segs: seq<Segment>, results: seq<Option<Option<seq<PackedSpan>>>>)
    returns (r: seq<Option<Option<seq<PackedSpan>>>>)
    requires |results| == |segs|
    requires forall i :: 0 <= i < |segs| ==> results[i] == None || results[i] == Some(pack(i, segs[i]))
    ensures |r| == |segs| && forall i :: 0 <= i < |segs| ==> r[i] == results[i] || r[i] == Some(pack(i, segs[i]))
    ensures forall i :: 0 <= i < |segs| ==> r[i] == None || r[i] == Some(pack(i, segs[i]))
  {
    var done: nat -> bool := *;
    r := seq(|segs|, i requires 0 <= i < |segs| == |results| => if done(i) then Some(pack(i, segs[i])) else results[i]);
  }

  lemma {:induction false} PackNone(pack: Packing)
    ensures PackAll(pack, []) == Some([])
  {
  }

  lemma {:induction false} PartitionsFinal(bs: nat, profile: Profile, final: bool, spans: seq<PackedSpan>, buf: seq<byte>)
    requires bs > 0 && Partitions(bs, profile, final, spans, buf)
    ensures Partitions(bs, profile, true, spans, buf)
  {
  }

  lemma {:induction false} SegmentSpansOk(bs: nat, profile: Profile, pack: Packing, segs: seq<Segment>, i: nat)
    requires bs > 0 && SEGMENT % bs == 0 && SoundPacking(bs, profile, pack) && Cuttable(segs)
    requires i < |segs| && pack(i, segs[i]).Some?
    ensures AllSpansOk(bs, profile, pack(i, segs[i]).value)
  {
    hide SpanOk;
    assert SoundSegment(bs, profile, segs[i], pack(i, segs[i]));
  }
}
