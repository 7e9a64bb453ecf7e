/**
 Compressing many files with a pool of workers.  Files are read in tree order,
 packed concurrently and collected in that order; identical files share one extent
 list.  The outcome is that of packing the files one after another.
 */
module FilePool {
  import opened Bytes
  import opened SpanPacker
  import opened Spool
  import opened FileMap
  import opened ZFile
  import opened StreamPacker

  // ---- one file after another ---------------------------------------------------------

  predicate Large(content: seq<byte>) { |content| >= 2 * SEGMENT }

  /** The files to compress, which of them cannot be read in full, which may share
      extents, what packing each one yields, and how to store. */
  datatype Batch = Batch(bs: nat, dedupes: bool, start: SpoolState, packs: nat -> Packing, workers: nat, minShared: nat,
                         files: seq<seq<byte>>, short: set<nat>)
  {
    /** The spans of a file: from segments packed in parallel when it is large and there
        are workers for that, else from packing it as one stream. */
    function SpansOf(i: nat): (r: Option<seq<PackedSpan>>)
      requires i < |files|
    {
      if Large(files[i]) && workers > 1 then PackAll(packs(i), ParallelSegments(files[i])) else packs(i)(0, Segment(files[i], true))
    }

    /** Substantial files that are not packed in parallel may share extents. */
    predicate Eligible(content: seq<byte>) { dedupes && minShared <= |content| && !Large(content) }

    /** The first file with the content of file i, looking from j on. */
    function FirstSame(i: nat, j: nat): (r: nat)
      requires j <= i < |files|
      ensures j <= r <= i && files[r] == files[i] && forall k :: j <= k < r ==> files[k] != files[i]
      decreases i - j
    {
      if files[j] == files[i] then j else FirstSame(i, j + 1)
    }

    /** The file whose extents file i uses: itself, or the first identical one. */
    function Canon(i: nat): (r: nat)
      requires i < |files|
      ensures r <= i && files[r] == files[i]
    {
      if Eligible(files[i]) then FirstSame(i, 0) else i
    }

    /** The first n files stored one after another: the store and each file's extents. */
    function Run(n: nat): (r: Option<(SpoolState, seq<seq<Extent>>)>)
      requires bs > 0 && n <= |files|
      ensures r.Some? ==> |r.value.1| == n
    {
      if n == 0 then Some((start, []))
      else
        var before := Run(n - 1);
        if before.None? then None else RunNext(n - 1, before.value.0, before.value.1)
    }

    function RunNext(i: nat, st: SpoolState, lists: seq<seq<Extent>>): (r: Option<(SpoolState, seq<seq<Extent>>)>)
      requires bs > 0 && i < |files| && |lists| == i
      ensures r.Some? ==> |r.value.1| == i + 1 && lists <= r.value.1
    {
      if i in short then None
      else if Canon(i) < i then Some((st, lists + [lists[Canon(i)]]))
      else
        var spans := SpansOf(i);
        if spans.None? then None
        else
          var (after, extents) := PutAll(bs, dedupes, st, spans.value);
          Some((after, lists + [extents]))
    }
  }

  lemma {:induction false} CanonIsCanon(b: Batch, i: nat)
    requires i < |b.files|
    ensures b.Canon(b.Canon(i)) == b.Canon(i)
  {
  }

  lemma {:induction false} SameCanon(b: Batch, i: nat, j: nat)
    requires i < |b.files| && j < |b.files| && b.files[i] == b.files[j] && b.Eligible(b.files[i])
    ensures b.Canon(i) == b.Canon(j)
  {
  }

  lemma {:induction false} RunFails(b: Batch, n: nat, m: nat)
    requires b.bs > 0 && n <= m <= |b.files| && b.Run(n).None?
    ensures b.Run(m).None?
    decreases m
  {
    hide Batch.RunNext, Batch.Canon;
    if n < m { RunFails(b, n, m - 1); }
  }

  /** Later files do not change the extents of earlier ones. */
  lemma {:induction false} RunPrefix(b: Batch, n: nat, m: nat)
    requires b.bs > 0 && n <= m <= |b.files| && b.Run(m).Some?
    ensures b.Run(n).Some? && b.Run(n).value.1 <= b.Run(m).value.1
    decreases m
  {
    hide Batch.RunNext, Batch.Canon;
    if n < m { RunPrefix(b, n, m - 1); }
  }

  /** A file that cannot be read in full fails the run. */
  lemma {:induction false} ShortStops(b: Batch, k: nat)
    requires b.bs > 0 && k < |b.files| && k in b.short
    ensures b.Run(k + 1).None? && b.Run(|b.files|).None?
  {
    RunFails(b, k + 1, |b.files|);
  }

  lemma {:induction false} NextShared(b: Batch, i: nat, st: SpoolState, lists: seq<seq<Extent>>)
    requires b.bs > 0 && i < |b.files| && |lists| == i && b.Canon(i) < i && i !in b.short
    ensures b.RunNext(i, st, lists) == Some((st, lists + [lists[b.Canon(i)]]))
  {
  }

  /** Files that share an earlier one's extents store nothing. */
  lemma {:induction false} RunShared(b: Batch, n: nat, m: nat)
    requires b.bs > 0 && n <= m <= |b.files| && b.Run(n).Some?
    requires forall k :: n <= k < m ==> b.Canon(k) < k && k !in b.short
    ensures b.Run(m).Some? && b.Run(m).value.0 == b.Run(n).value.0 && b.Run(n).value.1 <= b.Run(m).value.1
    decreases m
  {
    hide Batch.RunNext, Batch.Canon;
    if n < m {
      RunShared(b, n, m - 1);
      NextShared(b, m - 1, b.Run(m - 1).value.0, b.Run(m - 1).value.1);
    }
  }

  /** Every file has the extents of its canonical file. */
  lemma {:induction false} RunList(b: Batch, n: nat, k: nat)
    requires b.bs > 0 && k < n <= |b.files| && b.Run(n).Some?
    ensures b.Run(n).value.1[k] == b.Run(n).value.1[b.Canon(k)]
  {
    hide Batch.RunNext, Batch.Canon;
    RunPrefix(b, k + 1, n);
    if k in b.short { ShortStops(b, k); }
    RunPrefix(b, k, k + 1);
    if b.Canon(k) < k { NextShared(b, k, b.Run(k).value.0, b.Run(k).value.1); }
  }

  /** From one canonical file to the next nothing is stored but that file. */
  lemma {:induction false} RunTo(b: Batch, n: nat, c: nat, spans: seq<PackedSpan>)
    requires b.bs > 0 && n <= c < |b.files| && b.Run(n).Some?
    requires b.Canon(c) == c && c !in b.short && forall k :: n <= k < c ==> b.Canon(k) < k && k !in b.short
    requires b.SpansOf(c) == Some(spans)
    ensures var (after, extents) := PutAll(b.bs, b.dedupes, b.Run(n).value.0, spans);
      b.Run(c + 1).Some? && b.Run(c + 1).value.0 == after && b.Run(c + 1).value.1[c] == extents
      && b.Run(n).value.1 <= b.Run(c + 1).value.1
  {
    hide Batch.Canon, Batch.RunNext, Batch.SpansOf, PutAll;
    RunShared(b, n, c);
    NextStored(b, c, b.Run(c).value.0, b.Run(c).value.1, spans);
  }

  lemma {:induction false} NextStored(b: Batch, i: nat, st: SpoolState, lists: seq<seq<Extent>>, spans: seq<PackedSpan>)
    requires b.bs > 0 && i < |b.files| && |lists| == i && b.Canon(i) == i && i !in b.short && b.SpansOf(i) == Some(spans)
    ensures var (after, extents) := PutAll(b.bs, b.dedupes, st, spans);
      b.RunNext(i, st, lists) == Some((after, lists + [extents]))
  {
  }

  /** A canonical file that cannot be packed fails the run. */
  lemma {:induction false} RunStops(b: Batch, n: nat, c: nat)
    requires b.bs > 0 && n <= c < |b.files| && b.Run(n).Some?
    requires b.Canon(c) == c && c !in b.short && forall k :: n <= k < c ==> b.Canon(k) < k && k !in b.short
    requires b.SpansOf(c).None?
    ensures b.Run(|b.files|).None?
  {
    RunShared(b, n, c);
    RunFails(b, c + 1, |b.files|);
  }

  // ---- what the run leaves readable -----------------------------------------------------

  /** Whole blocks, and every shared extent reads back. */
  ghost predicate StateOk(bs: nat, st: SpoolState) {
    bs > 0 && |st.spool| == bs * st.compBlocks
    && forall d <- st.dedupe :: ReadsBack(bs, st.spool, st.dedupe[d], d.preimage)
  }

  lemma {:induction false} PutSpanReads(bs: nat, dedupes: bool, profile: Profile, st: SpoolState, s: PackedSpan)
    requires StateOk(bs, st) && profile.Valid(bs) && SpanOk(bs, profile, s)
    ensures var (after, e) := PutSpan(bs, dedupes, st, s);
      StateOk(bs, after) && st.spool <= after.spool && ReadsBack(bs, after.spool, e, s.raw)
  {
    hide ReadsBack, SpanOk, StoredBlocks, NewExtent;
    if !(dedupes && Digest(s.raw) in st.dedupe) {
      StoreReadsBack(bs, profile, st.spool, st.compBlocks, s);
      MulSplit(bs, st.compBlocks, NewExtent(bs, s, st.compBlocks).blocks);
      forall d <- st.dedupe ensures ReadsBack(bs, st.spool + StoredBlocks(bs, s), st.dedupe[d], d.preimage) {
        ReadsBackStable(bs, st.spool, StoredBlocks(bs, s), st.dedupe[d], d.preimage);
      }
    }
  }

  lemma {:induction false} PutAllReads(bs: nat, dedupes: bool, profile: Profile, st: SpoolState, spans: seq<PackedSpan>)
    requires StateOk(bs, st) && profile.Valid(bs) && AllSpansOk(bs, profile, spans)
    ensures var (after, extents) := PutAll(bs, dedupes, st, spans);
      StateOk(bs, after) && st.spool <= after.spool && StoredAs(bs, after.spool, extents, RawsOf(spans))
  {
    hide ReadsBack, SpanOk, PutSpan, StateOk, Profile.Valid;
    StateBlocks(bs, st);
    if spans != [] {
      var front, s := spans[..|spans| - 1], spans[|spans| - 1];
      PutAllReads(bs, dedupes, profile, st, front);
      var (mid, extents) := PutAll(bs, dedupes, st, front);
      PutSpanReads(bs, dedupes, profile, mid, s);
      var (after, e) := PutSpan(bs, dedupes, mid, s);
      StoredAsSnoc(bs, mid.spool, after.spool, extents, RawsOf(front), e, s.raw);
      assert RawsOf(spans) == RawsOf(front) + [s.raw];
    }
  }

  /** Each file's packing is sound. */
  ghost predicate SoundBatch(b: Batch, profile: Profile)
    requires b.bs > 0
  {
    forall i: nat :: SoundPacking(b.bs, profile, b.packs(i))
  }

  /** A file's spans cover it. */
  lemma {:induction false} SpansCover(b: Batch, profile: Profile, i: nat)
    requires b.bs > 0 && SEGMENT % b.bs == 0 && SoundBatch(b, profile) && i < |b.files| && b.SpansOf(i).Some?
    ensures Partitions(b.bs, profile, true, b.SpansOf(i).value, b.files[i])
  {
    hide Partitions, SoundPacking;
    var content, pack := b.files[i], b.packs(i);
    assert SoundPacking(b.bs, profile, pack);
    if Large(content) && b.workers > 1 {
      var segs := ParallelSegments(content);
      ParallelCuttable(content);
      PackAllCovers(b.bs, profile, pack, segs);
      PartitionsFinal(b.bs, profile, Ends(segs), b.SpansOf(i).value, content);
    } else {
      JobSound(b.bs, profile, pack, 0, Segment(content, true));
    }
  }

  lemma {:induction false} JobSound(bs: nat, profile: Profile, pack: Packing, k: nat, seg: Segment)
    requires bs > 0 && SoundPacking(bs, profile, pack)
    ensures SoundSegment(bs, profile, seg, pack(k, seg))
  {
  }

  /** These extents read back to the file, cut at block boundaries. */
  ghost predicate FileReads(b: Batch, spool: seq<byte>, extents: seq<Extent>, i: nat)
    requires b.bs > 0 && i < |b.files|
  {
    b.SpansOf(b.Canon(i)).Some?
    && var raws := RawsOf(b.SpansOf(b.Canon(i)).value);
       StoredAs(b.bs, spool, extents, raws) && Flatten(raws) == b.files[i] && Aligned(b.bs, raws)
  }

  lemma {:induction false} FileReadsGrows(b: Batch, spool: seq<byte>, bigger: seq<byte>, extents: seq<Extent>, i: nat)
    requires b.bs > 0 && i < |b.files| && FileReads(b, spool, extents, i) && spool <= bigger
    ensures FileReads(b, bigger, extents, i)
  {
    hide StoredAs, Flatten, Batch.SpansOf, Batch.Canon;
    StoredAsGrows(b.bs, spool, bigger, extents, RawsOf(b.SpansOf(b.Canon(i)).value));
  }

  lemma {:induction false} FileReadsNew(b: Batch, profile: Profile, st: SpoolState, i: nat)
    requires StateOk(b.bs, st) && profile.Valid(b.bs) && SEGMENT % b.bs == 0 && SoundBatch(b, profile)
    requires i < |b.files| && b.Canon(i) == i && b.SpansOf(i).Some?
    ensures var (after, extents) := PutAll(b.bs, b.dedupes, st, b.SpansOf(i).value);
      StateOk(b.bs, after) && st.spool <= after.spool && FileReads(b, after.spool, extents, i)
  {
    hide StateOk, StoredAs, Batch.SpansOf, SoundBatch, PutAll, Profile.Valid, SpanOk, Batch.Canon;
    var spans := b.SpansOf(i).value;
    StateBlocks(b.bs, st);
    SpansCover(b, profile, i);
    RawsFlatten(spans);
    PutAllReads(b.bs, b.dedupes, profile, st, spans);
  }

  /** A file that shares extents reads from them as the file it shares them with. */
  lemma {:induction false} FileReadsShared(b: Batch, spool: seq<byte>, extents: seq<Extent>, i: nat)
    requires b.bs > 0 && i < |b.files| && FileReads(b, spool, extents, b.Canon(i))
    ensures FileReads(b, spool, extents, i)
  {
    hide StoredAs, Flatten, Batch.SpansOf, Batch.Canon;
    CanonIsCanon(b, i);
  }

  lemma {:induction false} StateBlocks(bs: nat, st: SpoolState)
    requires StateOk(bs, st)
    ensures bs > 0
  {
  }

  /** After the run, whatever was shared, every file reads back from its extents. */
  lemma {:induction false} RunReads(b: Batch, profile: Profile, n: nat)
    requires StateOk(b.bs, b.start) && profile.Valid(b.bs) && SEGMENT % b.bs == 0 && SoundBatch(b, profile)
    requires b.bs > 0 && n <= |b.files| && b.Run(n).Some?
    ensures StateOk(b.bs, b.Run(n).value.0)
    ensures forall k :: 0 <= k < n ==> FileReads(b, b.Run(n).value.0.spool, b.Run(n).value.1[k], k)
  {
    hide StateOk, SoundBatch, FileReads, Batch.Canon, Batch.SpansOf, PutAll, Batch.RunNext, Profile.Valid;
    if n > 0 {
      RunReads(b, profile, n - 1);
      var st, lists := b.Run(n - 1).value.0, b.Run(n - 1).value.1;
      NextGrows(b, profile, n - 1, st, lists);
      var (after, all) := b.Run(n).value;
      forall k | 0 <= k < n ensures FileReads(b, after.spool, all[k], k) {
        if k < n - 1 { FileReadsGrows(b, st.spool, after.spool, lists[k], k); }
      }
    }
  }

  lemma {:induction false} NextGrows(b: Batch, profile: Profile, i: nat, st: SpoolState, lists: seq<seq<Extent>>)
    requires StateOk(b.bs, st) && profile.Valid(b.bs) && SEGMENT % b.bs == 0 && SoundBatch(b, profile)
    requires b.bs > 0 && i < |b.files| && |lists| == i && b.RunNext(i, st, lists).Some?
    requires forall k :: 0 <= k < i ==> FileReads(b, st.spool, lists[k], k)
    ensures var (after, all) := b.RunNext(i, st, lists).value;
      StateOk(b.bs, after) && st.spool <= after.spool && lists <= all && FileReads(b, after.spool, all[i], i)
  {
    hide StateOk, SoundBatch, FileReads, Batch.SpansOf, PutAll, Profile.Valid, Batch.Canon;
    if b.Canon(i) == i { FileReadsNew(b, profile, st, i); } else { FileReadsShared(b, st.spool, lists[b.Canon(i)], i); }
  }

  // ---- the pool --------------------------------------------------------------------------

  /** A file handed to the workers, and the files that wait for its extents. */
  datatype FileJob = FileJob(index: nat, result: Option<Option<seq<PackedSpan>>>, duplicates: set<nat>)

  /** Of the first i files, exactly those whose canonical file is settled have extents:
      that file's. */
  ghost predicate Assigned(b: Batch, lists: seq<seq<Extent>>, i: nat, zi: map<nat, seq<Extent>>) {
    forall k: nat :: k < |b.files| ==> AssignedAt(b, lists, i, zi, k)
  }

  /** lists holds the extents of the settled files. */
  ghost predicate AssignedAt(b: Batch, lists: seq<seq<Extent>>, i: nat, zi: map<nat, seq<Extent>>, k: nat)
    requires k < |b.files|
  {
    (k in zi <==> k < i && b.Canon(k) < |lists|) && (k in zi ==> zi[k] == lists[b.Canon(k)])
  }

  ghost predicate JobOk(b: Batch, settled: nat, i: nat, job: FileJob)
    requires i <= |b.files|
  {
    settled <= job.index < i && b.Canon(job.index) == job.index && !Large(b.files[job.index])
    && (job.result == None || job.result == Some(b.SpansOf(job.index)))
    && (forall k: nat :: k in job.duplicates <==> k < i && k != job.index && b.Canon(k) == job.index)
  }

  ghost predicate IsPending(pending: seq<FileJob>, k: nat) {
    exists q :: 0 <= q < |pending| && pending[q].index == k
  }

  /** The canonical files from settled on are in the queue, in order. */
  ghost predicate Pending(b: Batch, settled: nat, i: nat, pending: seq<FileJob>)
    requires i <= |b.files|
  {
    (forall q :: 0 <= q < |pending| ==> JobOk(b, settled, i, pending[q]))
    && (forall q, r :: 0 <= q < r < |pending| ==> pending[q].index < pending[r].index)
    && (forall k: nat :: settled <= k < i && b.Canon(k) == k ==> IsPending(pending, k))
  }

  lemma {:induction false} JobsInRange(b: Batch, settled: nat, i: nat, pending: seq<FileJob>)
    requires i <= |b.files| && Pending(b, settled, i, pending)
    ensures forall q :: 0 <= q < |pending| ==> pending[q].index < |b.files|
  {
    hide Batch.Canon, Large, Batch.SpansOf;
  }

  /** A result that arrives is what its worker made of the file. */
  lemma {:induction false} PendingFinished(b: Batch, settled: nat, i: nat, p: seq<FileJob>, after: seq<FileJob>)
    requires i <= |b.files| && Pending(b, settled, i, p) && |after| == |p|
    requires forall q :: 0 <= q < |p| ==> p[q].index < |b.files|
    requires forall q :: 0 <= q < |p| ==>
      after[q] == p[q] || after[q] == p[q].(result := Some(b.SpansOf(p[q].index)))
    ensures Pending(b, settled, i, after)
  {
    hide Batch.Canon, JobOk, Batch.SpansOf, IsPending;
    forall q | 0 <= q < |after| ensures JobOk(b, settled, i, after[q]) {
      JobFinished(b, settled, i, p[q]);
    }
    forall k: nat | settled <= k < i && b.Canon(k) == k ensures IsPending(after, k) {
      StillPending(p, after, k);
    }
  }

  lemma {:induction false} JobFinished(b: Batch, settled: nat, i: nat, job: FileJob)
    requires i <= |b.files| && JobOk(b, settled, i, job)
    ensures job.index < i && JobOk(b, settled, i, job.(result := Some(b.SpansOf(job.index))))
  {
    hide Batch.Canon, Large, Batch.SpansOf;
  }

  lemma {:induction false} StillPending(p: seq<FileJob>, after: seq<FileJob>, k: nat)
    requires IsPending(p, k) && |p| == |after| && forall q :: 0 <= q < |p| ==> after[q].index == p[q].index
    ensures IsPending(after, k)
  {
    var q :| 0 <= q < |p| && p[q].index == k;
    assert after[q].index == k;
  }

  /** Everything before the oldest job is settled or shared. */
  lemma {:induction false} OldestFirst(b: Batch, settled: nat, i: nat, pending: seq<FileJob>, k: nat)
    requires i <= |b.files| && Pending(b, settled, i, pending)
    requires pending != [] && settled <= k < pending[0].index
    ensures b.Canon(k) < k
  {
    assert JobOk(b, settled, i, pending[0]);
    assert b.Canon(k) == k ==> IsPending(pending, k);
  }

  /** Taking the oldest job off the queue settles it. */
  lemma {:induction false} PendingTail(b: Batch, settled: nat, i: nat, pending: seq<FileJob>)
    requires i <= |b.files| && Pending(b, settled, i, pending) && pending != []
    ensures Pending(b, pending[0].index + 1, i, pending[1..])
  {
    hide Batch.Canon, Large;
    var c, rest := pending[0].index, pending[1..];
    forall q | 0 <= q < |rest| ensures JobOk(b, c + 1, i, rest[q]) {
      assert JobOk(b, settled, i, pending[q + 1]) && pending[0].index < pending[q + 1].index;
    }
    forall k: nat | c + 1 <= k < i && b.Canon(k) == k ensures IsPending(rest, k) {
      assert JobOk(b, settled, i, pending[0]);
      assert IsPending(pending, k);
      var q :| 0 <= q < |pending| && pending[q].index == k;
      assert rest[q - 1].index == k;
    }
  }

  /** A canonical file before the oldest job, or that job itself. */
  lemma {:induction false} CanonSettles(b: Batch, settled: nat, i: nat, pending: seq<FileJob>, k: nat)
    requires i <= |b.files| && Pending(b, settled, i, pending) && pending != [] && k < i
    ensures b.Canon(k) <= pending[0].index <==> b.Canon(k) < settled || b.Canon(k) == pending[0].index
  {
    CanonIsCanon(b, k);
    var c := b.Canon(k);
    assert JobOk(b, settled, i, pending[0]);
    if settled <= c < pending[0].index { OldestFirst(b, settled, i, pending, c); }
  }

  /** The extents of the oldest job go to its file and to those waiting for it. */
  function Assign(zi: map<nat, seq<Extent>>, job: FileJob, extents: seq<Extent>): (r: map<nat, seq<Extent>>) {
    zi + (map k | k in job.duplicates + {job.index} :: extents)
  }

  /** The extents after file c was stored, and nothing else. */
  ghost predicate Next(lists: seq<seq<Extent>>, more: seq<seq<Extent>>, c: nat, extents: seq<Extent>) {
    |more| == c + 1 && lists <= more && more[c] == extents
  }

  lemma {:induction false} AssignedOldest(b: Batch, lists: seq<seq<Extent>>, more: seq<seq<Extent>>, i: nat, zi: map<nat, seq<Extent>>,
                                          pending: seq<FileJob>, extents: seq<Extent>)
    requires i <= |b.files| && Assigned(b, lists, i, zi) && pending != [] && Pending(b, |lists|, i, pending)
    requires Next(lists, more, pending[0].index, extents)
    ensures Assigned(b, more, i, Assign(zi, pending[0], extents))
  {
    hide AssignedAt, Pending, JobOk, Assign, Next;
    var after := Assign(zi, pending[0], extents);
    forall k: nat | k < |b.files| ensures AssignedAt(b, more, i, after, k) {
      AssignedOldestAt(b, lists, more, i, zi, pending, extents, k);
    }
  }

  lemma {:induction false} AssignedOldestAt(b: Batch, lists: seq<seq<Extent>>, more: seq<seq<Extent>>, i: nat, zi: map<nat, seq<Extent>>,
                                            pending: seq<FileJob>, extents: seq<Extent>, k: nat)
    requires i <= |b.files| && k < |b.files| && AssignedAt(b, lists, i, zi, k) && pending != [] && Pending(b, |lists|, i, pending)
    requires Next(lists, more, pending[0].index, extents)
    ensures AssignedAt(b, more, i, Assign(zi, pending[0], extents), k)
  {
    hide Batch.Canon, Large, Batch.SpansOf;
    var job := pending[0];
    assert JobOk(b, |lists|, i, job);
    hide Pending;
    if k < i { CanonSettles(b, |lists|, i, pending, k); }
    assert k in job.duplicates + {job.index} <==> k < i && b.Canon(k) == job.index;
  }

  // ---- taking in one more file ---------------------------------------------------------------

  /** File i waits for the extents of the job it duplicates. */
  function JoinJob(job: FileJob, c: nat, i: nat): (r: FileJob) {
    if job.index == c then job.(duplicates := job.duplicates + {i}) else job
  }

  function JoinAll(pending: seq<FileJob>, c: nat, i: nat): (r: seq<FileJob>)
    ensures |r| == |pending|
  {
    seq(|pending|, q requires 0 <= q < |pending| => JoinJob(pending[q], c, i))
  }

  lemma {:induction false} JobShared(b: Batch, settled: nat, i: nat, job: FileJob)
    requires i < |b.files| && JobOk(b, settled, i, job) && b.Canon(i) < i
    ensures JobOk(b, settled, i + 1, JoinJob(job, b.Canon(i), i))
  {
    hide Batch.Canon, Large;
  }

  lemma {:induction false} PendingShared(b: Batch, settled: nat, i: nat, pending: seq<FileJob>)
    requires i < |b.files| && Pending(b, settled, i, pending) && b.Canon(i) < i
    ensures Pending(b, settled, i + 1, JoinAll(pending, b.Canon(i), i))
  {
    hide Batch.Canon, JobOk, IsPending;
    var all := JoinAll(pending, b.Canon(i), i);
    forall q | 0 <= q < |all| ensures JobOk(b, settled, i + 1, all[q]) {
      JobShared(b, settled, i, pending[q]);
    }
    forall k: nat | settled <= k < i + 1 && b.Canon(k) == k ensures IsPending(all, k) {
      StillPending(pending, all, k);
    }
  }

  /** A file whose canonical file is settled waits for no job. */
  lemma {:induction false} JoinSettled(b: Batch, settled: nat, i: nat, pending: seq<FileJob>, c: nat)
    requires i <= |b.files| && Pending(b, settled, i, pending) && c < settled
    ensures JoinAll(pending, c, i) == pending
  {
    hide Batch.Canon, Large;
    forall q | 0 <= q < |pending| ensures JoinAll(pending, c, i)[q] == pending[q] {
      assert JobOk(b, settled, i, pending[q]);
    }
  }

  lemma {:induction false} PendingNew(b: Batch, settled: nat, i: nat, pending: seq<FileJob>)
    requires i < |b.files| && settled <= i && Pending(b, settled, i, pending) && b.Canon(i) == i && !Large(b.files[i])
    ensures Pending(b, settled, i + 1, pending + [FileJob(i, None, {})])
  {
    hide Batch.Canon, Large;
    var all := pending + [FileJob(i, None, {})];
    forall q | 0 <= q < |all| ensures JobOk(b, settled, i + 1, all[q]) {
      if q < |pending| { assert JobOk(b, settled, i, pending[q]); }
    }
    forall k: nat | settled <= k < i + 1 && b.Canon(k) == k ensures IsPending(all, k) {
      if k < i {
        assert IsPending(pending, k);
        var q :| 0 <= q < |pending| && pending[q].index == k;
        assert all[q].index == k;
      } else {
        assert all[|pending|].index == k;
      }
    }
  }

  lemma {:induction false} AssignedNext(b: Batch, lists: seq<seq<Extent>>, i: nat, zi: map<nat, seq<Extent>>)
    requires |lists| <= i < |b.files| && Assigned(b, lists, i, zi)
    ensures b.Canon(i) >= |lists| ==> Assigned(b, lists, i + 1, zi)
    ensures b.Canon(i) < |lists| ==> b.Canon(i) in zi && Assigned(b, lists, i + 1, zi[i := zi[b.Canon(i)]])
  {
    hide Batch.Canon;
    CanonIsCanon(b, i);
    var c, next := b.Canon(i), i + 1;
    assert AssignedAt(b, lists, i, zi, c) && AssignedAt(b, lists, i, zi, i);
    var after := if c < |lists| then zi[i := zi[c]] else zi;
    forall k: nat | k < |b.files| ensures AssignedAt(b, lists, next, after, k) {
      assert AssignedAt(b, lists, i, zi, k);
    }
  }

  /** A large file is stored once nothing is pending. */
  lemma {:induction false} AssignedLarge(b: Batch, lists: seq<seq<Extent>>, more: seq<seq<Extent>>, i: nat, zi: map<nat, seq<Extent>>,
                                         extents: seq<Extent>)
    requires |lists| <= i < |b.files| && Assigned(b, lists, i, zi)
    requires Pending(b, |lists|, i, []) && b.Canon(i) == i && Next(lists, more, i, extents)
    ensures Assigned(b, more, i + 1, zi[i := extents]) && Pending(b, i + 1, i + 1, [])
  {
    hide Batch.Canon;
    var now, after := i + 1, zi[i := extents];
    forall k: nat | k < |b.files| ensures AssignedAt(b, more, now, after, k) {
      assert AssignedAt(b, lists, i, zi, k);
      if k < i { NonePending(b, |lists|, i, k); }
    }
  }

  /** With an empty queue every canonical file is settled. */
  lemma {:induction false} NonePending(b: Batch, settled: nat, i: nat, k: nat)
    requires k < i <= |b.files| && Pending(b, settled, i, [])
    ensures b.Canon(k) < settled
  {
    CanonIsCanon(b, k);
    assert settled <= b.Canon(k) ==> IsPending([], b.Canon(k));
  }

  // ---- finding identical files -----------------------------------------------------------

  /** The sizes of the files that could share extents; -1 for the others. */
  function Sizes(b: Batch): (r: seq<int>)
    ensures |r| == |b.files|
  {
    seq(|b.files|, i requires 0 <= i < |b.files| => if b.Eligible(b.files[i]) then |b.files[i]| else -1)
  }

  /** How many of the first n files could share extents and have this size. */
  function SizeCount(b: Batch, n: nat, size: nat): (r: nat)
    requires n <= |b.files|
  {
    Occurs(Sizes(b), n, size)
  }

  lemma {:induction false} SharedIsCounted(b: Batch, j: nat, i: nat)
    requires j < i < |b.files| && b.Eligible(b.files[i]) && b.files[j] == b.files[i]
    ensures SizeCount(b, |b.files|, |b.files[i]|) > 1
  {
    OccursTwice(Sizes(b), j, i);
  }

  /** The canonical files seen so far, by content, where a size repeats. */
  ghost predicate SeenOk(b: Batch, i: nat, seen: map<Digest, nat>)
    requires i <= |b.files|
  {
    (forall d <- seen :: seen[d] < i && b.files[seen[d]] == d.preimage && b.Canon(seen[d]) == seen[d] && b.Eligible(d.preimage))
    && forall k: nat :: k < i && SizeCount(b, |b.files|, |b.files[k]|) > 1 && b.Eligible(b.files[k]) ==> Digest(b.files[k]) in seen
  }

  predicate Found(b: Batch, i: nat, seen: map<Digest, nat>)
    requires i < |b.files|
  {
    SizeCount(b, |b.files|, |b.files[i]|) > 1 && Digest(b.files[i]) in seen
  }

  /** Hashing only sizes that repeat still finds every identical file. */
  lemma {:induction false} Lookup(b: Batch, i: nat, seen: map<Digest, nat>)
    requires i < |b.files| && SeenOk(b, i, seen)
    ensures b.Canon(i) == if Found(b, i, seen) then seen[Digest(b.files[i])] else i
  {
    hide SizeCount;
    var c := b.Canon(i);
    if Found(b, i, seen) {
      SameCanon(b, i, seen[Digest(b.files[i])]);
    } else if c < i {
      SharedIsCounted(b, c, i);
      assert false;
    }
  }

  lemma {:induction false} SeenNext(b: Batch, i: nat, seen: map<Digest, nat>)
    requires i < |b.files| && SeenOk(b, i, seen)
    requires SizeCount(b, |b.files|, |b.files[i]|) > 1 ==> b.Eligible(b.files[i])
    ensures Found(b, i, seen) || SizeCount(b, |b.files|, |b.files[i]|) <= 1 ==> SeenOk(b, i + 1, seen)
    ensures !Found(b, i, seen) && SizeCount(b, |b.files|, |b.files[i]|) > 1 ==> SeenOk(b, i + 1, seen[Digest(b.files[i]) := i])
  {
    hide SizeCount, Batch.Canon, Batch.Eligible;
    Lookup(b, i, seen);
  }

  lemma {:induction false} CountNext(b: Batch, i: nat, size: nat)
    requires i < |b.files|
    ensures SizeCount(b, i + 1, size) == SizeCount(b, i, size) + if b.Eligible(b.files[i]) && |b.files[i]| == size then 1 else 0
  {
  }

  lemma {:induction false} CountNone(b: Batch, size: nat)
    ensures SizeCount(b, 0, size) == 0
  {
  }

  /** Only sizes of eligible files are counted, and eligibility goes by size. */
  lemma {:induction false} CountedIsEligible(b: Batch, n: nat, content: seq<byte>)
    requires n <= |b.files| && SizeCount(b, n, |content|) > 0
    ensures b.Eligible(content)
    decreases n
  {
    if SizeCount(b, n - 1, |content|) > 0 { CountedIsEligible(b, n - 1, content); }
  }

  // ---- the pool --------------------------------------------------------------------------

  function Buffers(sources: seq<Source>): (r: seq<seq<byte>>)
    ensures |r| == |sources| && forall i :: 0 <= i < |r| ==> r[i] == sources[i].Buffer()
  {
    seq(|sources|, i requires 0 <= i < |sources| => sources[i].Buffer())
  }

  ghost function Short(sources: seq<Source>): (r: set<nat>)
    ensures forall i: nat :: i in r <==> i < |sources| && !sources[i].Complete()
  {
    set i: nat | i < |sources| && !sources[i].Complete()
  }

  class Pool {
    const store: Store
    const packs: nat -> Packing
    const workers: nat
    const sources: seq<Source>
    const files: seq<seq<byte>>   // the buffers the sources are read into
    const minShared: nat
    const capacity: nat
    ghost const profile: Profile
    ghost const batch: Batch
    var pending: seq<FileJob>
    var zi: map<nat, seq<Extent>>
    var seen: map<Digest, nat>
    ghost var settled: nat

    /** Files before settled are stored as if nothing ran in parallel, the canonical
        ones after it are queued, and extents are assigned accordingly. */
    ghost predicate Valid(i: nat)
      reads this, store
    {
      Agrees() && store.Valid() && settled <= i <= |files| && batch.Run(settled).Some?
      && store.State() == batch.Run(settled).value.0
      && Assigned(batch, Lists(settled), i, zi) && Pending(batch, settled, i, pending) && forall k: nat :: k < i ==> k !in batch.short
    }

    /** The extents of the first n files, had they been stored one after another. */
    ghost function Lists(n: nat): (r: seq<seq<Extent>>)
      requires batch.bs > 0 && n <= |batch.files| && batch.Run(n).Some?
      ensures |r| == n
    {
      batch.Run(n).value.1
    }

    /** The parameters are sound and the batch is this pool's own. */
    ghost predicate Agrees() {
      batch.bs == store.blockSize > 0 && batch.dedupes == store.dedupes && batch.packs == packs && batch.workers == workers
      && batch.minShared == minShared && batch.files == files == Buffers(sources) && batch.short == Short(sources)
      && profile.Valid(store.blockSize) && SEGMENT % store.blockSize == 0
      && SoundBatch(batch, profile) && capacity > 0 && StateOk(batch.bs, batch.start)
    }

    constructor (store: Store, ghost profile: Profile, packs: nat -> Packing, workers: nat, sources: seq<Source>,
                 minShared: nat, capacity: nat)
      requires store.Valid() && profile.Valid(store.blockSize) && SEGMENT % store.blockSize == 0
      requires (forall i: nat :: SoundPacking(store.blockSize, profile, packs(i))) && capacity > 0
      ensures Valid(0) && files == Buffers(sources) && this.store == store && seen == map[]
      ensures batch == Batch(store.blockSize, store.dedupes, store.State(), packs, workers, minShared, Buffers(sources), Short(sources))
    {
      this.store, this.profile, this.packs, this.workers, this.sources := store, profile, packs, workers, sources;
      files := Buffers(sources);
      this.minShared, this.capacity := minShared, capacity;
      batch := Batch(store.blockSize, store.dedupes, store.State(), packs, workers, minShared, Buffers(sources), Short(sources));
      pending, zi, seen, settled := [], map[], map[], 0;
    }

    /** Any of the running workers may finish at any time. */
    method Interleave(ghost i: nat)
      requires Valid(i)
      modifies this`pending
      ensures Valid(i) && |pending| == |old(pending)|
    {
      hide Assigned, Batch.Run, Batch.Canon, SoundBatch, Profile.Valid, Store.Valid, JobOk, StateOk;
      var done: nat -> bool := *;
      var p, f, g := pending, packs, files;
      JobsInRange(batch, settled, i, p);
      pending := seq(|p|, q requires 0 <= q < |p| && p[q].index < |g| =>
        if done(q) then p[q].(result := Some(f(p[q].index)(0, Segment(g[p[q].index], true)))) else p[q]);
      forall q | 0 <= q < |p| && done(q) ensures pending[q] == p[q].(result := Some(batch.SpansOf(p[q].index))) {
        JobIsSmall(batch, settled, i, p, q);
      }
      PendingFinished(batch, settled, i, p, pending);
    }

    lemma {:induction false} FileSpansOk(i: nat)
      requires Agrees() && i < |batch.files| && batch.SpansOf(i).Some?
      ensures AllSpansOk(store.blockSize, profile, batch.SpansOf(i).value)
    {
      hide SpanOk, SoundBatch, Batch.SpansOf;
      SpansCover(batch, profile, i);
    }

    /** Waits for the oldest job. */
    method Oldest(ghost i: nat) returns (job: FileJob, spans: Option<seq<PackedSpan>>)
      requires Valid(i) && pending != []
      modifies this`pending
      ensures Valid(i) && |pending| == |old(pending)| && job == pending[0] && settled <= job.index < i
      ensures spans == batch.SpansOf(job.index)
      ensures JobOk(batch, settled, i, job) && batch.Canon(job.index) == job.index
      ensures forall k :: settled <= k < job.index ==> batch.Canon(k) < k
      ensures spans.Some? ==> AllSpansOk(store.blockSize, profile, spans.value)
    {
      hide Assigned, Batch.Run, Batch.Canon, SoundBatch, Profile.Valid, Store.Valid, AllSpansOk;
      Interleave(i);
      job := pending[0];
      assert JobOk(batch, settled, i, job);
      spans := if job.result.Some? then job.result.value else packs(job.index)(0, Segment(files[job.index], true));
      if spans.Some? { FileSpansOk(job.index); }
      forall k | settled <= k < job.index ensures batch.Canon(k) < k { OldestFirst(batch, settled, i, pending, k); }
    }

    /** Stores the oldest job and gives its extents to all files that wait for them. */
    method Collect(ghost i: nat) returns (ok: bool)
      requires Valid(i) && pending != []
      modifies this`pending, this`zi, this`settled, store
      ensures ok ==> Valid(i) && |pending| == |old(pending)| - 1
      ensures !ok ==> batch.Run(|files|).None?
    {
      hide Assigned, Pending, JobOk, Batch.Run, Batch.Canon, SoundBatch, Profile.Valid, AllSpansOk, PutAll, Batch.SpansOf, Assign, Store.Counted;
      var job, spans := Oldest(i);
      if spans.None? {
        RunStops(batch, settled, job.index);
        return false;
      }
      ok := true;
      RunTo(batch, settled, job.index, spans.value);
      var extents := StoreAll(store, profile, spans.value);
      AssignedOldest(batch, Lists(settled), Lists(job.index + 1), i, zi, pending, extents);
      PendingTail(batch, settled, i, pending);
      zi := Assign(zi, job, extents);
      pending := pending[1..];
      settled := job.index + 1;
    }

    method Drain(ghost i: nat) returns (ok: bool)
      requires Valid(i)
      modifies this`pending, this`zi, this`settled, store
      ensures ok ==> Valid(i) && pending == []
      ensures !ok ==> batch.Run(|files|).None?
    {
      hide Valid;
      ok := true;
      while pending != []
        invariant ok && Valid(i)
        decreases |pending|
      {
        ok := Collect(i);
        if !ok { return; }
      }
    }

    /** Counts the sizes of the files that may share extents. */
    method CountSizes() returns (sizes: map<nat, nat>)
      requires Agrees()
      ensures forall size: nat :: (if size in sizes then sizes[size] else 0) == SizeCount(batch, |files|, size)
    {
      hide SizeCount, SoundBatch, Profile.Valid;
      sizes := map[];
      if !store.dedupes {
        forall size: nat ensures SizeCount(batch, |files|, size) == 0 {
          if SizeCount(batch, |files|, size) > 0 { CountedIsEligible(batch, |files|, seq(size, _ => 0)); }
        }
        return;
      }
      forall size: nat ensures SizeCount(batch, 0, size) == 0 { CountNone(batch, size); }
      for i := 0 to |files|
        invariant forall size: nat :: (if size in sizes then sizes[size] else 0) == SizeCount(batch, i, size)
      {
        forall size: nat ensures SizeCount(batch, i + 1, size)
            == SizeCount(batch, i, size) + if batch.Eligible(batch.files[i]) && |batch.files[i]| == size then 1 else 0 {
          CountNext(batch, i, size);
        }
        var size := |files[i]|;
        if size >= minShared && size < 2 * SEGMENT {
          sizes := sizes[size := (if size in sizes then sizes[size] else 0) + 1];
        }
      }
    }

    /** Takes in a file that shares the extents of file c. */
    method Share(i: nat, c: nat)
      requires Valid(i) && i < |files| && i !in batch.short && batch.Canon(i) == c < i
      modifies this`pending, this`zi
      ensures Valid(i + 1)
    {
      hide Assigned, Pending, Batch.Run, Batch.Canon, SoundBatch, Profile.Valid, Store.Valid, JoinAll;
      AssignedNext(batch, Lists(settled), i, zi);
      PendingShared(batch, settled, i, pending);
      if c < settled { JoinSettled(batch, settled, i, pending, c); }
      CanonIsCanon(batch, i);
      AssignedTells(batch, Lists(settled), i, zi, c);
      if c in zi {
        zi := zi[i := zi[c]];
      } else {
        pending := JoinAll(pending, c, i);
      }
    }

    /** Takes in a file of ordinary size. */
    method AddSmall(i: nat, sizes: map<nat, nat>) returns (ok: bool)
      requires Valid(i) && i < |files| && !Large(files[i]) && SeenOk(batch, i, seen)
      requires forall size: nat :: (if size in sizes then sizes[size] else 0) == SizeCount(batch, |files|, size)
      modifies this, store
      ensures ok ==> Valid(i + 1) && SeenOk(batch, i + 1, seen)
      ensures !ok ==> batch.Run(|files|).None?
    {
      hide Assigned, Pending, Batch.Run, Batch.Canon, SoundBatch, Profile.Valid, Store.Valid, SizeCount, SeenOk, Large;
      ok := true;
      if |pending| == capacity {
        ok := Collect(i);
        if !ok { return; }
      }
      if !sources[i].Complete() {
        ShortStops(batch, i);
        return false;
      }
      var content := files[i];
      var count := if |content| in sizes then sizes[|content|] else 0;
      if count > 0 { CountedIsEligible(batch, |files|, content); }
      Lookup(batch, i, seen);
      SeenNext(batch, i, seen);
      if count > 1 {
        if Digest(content) in seen {
          SeenBefore(batch, i, seen);
          Share(i, seen[Digest(content)]);
          return;
        }
        seen := seen[Digest(content) := i];
      }
      AssignedNext(batch, Lists(settled), i, zi);
      PendingNew(batch, settled, i, pending);
      pending := pending + [FileJob(i, None, {})];
    }

    /** Compresses a large file: in parallel segments, or as one stream when there is a
        single worker. */
    method CompressLarge(i: nat) returns (extents: seq<Extent>, ok: bool)
      requires Agrees() && store.Valid() && i < |files| && Large(files[i])
      modifies store
      ensures ok <==> i !in batch.short && batch.SpansOf(i).Some?
      ensures ok ==> store.Valid() && (store.State(), extents) == PutAll(store.blockSize, store.dedupes, old(store.State()), batch.SpansOf(i).value)
    {
      hide SoundBatch, Profile.Valid, PutAll, StoredAs, PackAll, Partitions, AllSpansOk;
      if workers > 1 {
        PacksSound(batch, profile, i);
        extents, ok := CompressParallel(store, profile, packs(i), sources[i]);
        return;
      }
      var spans := packs(i)(0, Segment(files[i], true));
      ok := sources[i].Complete() && spans.Some?;
      extents := [];
      if ok {
        FileSpansOk(i);
        extents := StoreAll(store, profile, spans.value);
      }
    }

    lemma {:induction false} PacksSound(b: Batch, profile: Profile, i: nat)
      requires b.bs > 0 && SoundBatch(b, profile)
      ensures SoundPacking(b.bs, profile, b.packs(i))
    {
    }

    /** Takes in a large file: everything before it is stored first. */
    method AddLarge(i: nat) returns (ok: bool)
      requires Valid(i) && i < |files| && Large(files[i]) && SeenOk(batch, i, seen)
      modifies this, store
      ensures ok ==> Valid(i + 1) && SeenOk(batch, i + 1, seen)
      ensures !ok ==> batch.Run(|files|).None?
    {
      hide Assigned, Pending, Batch.Run, SoundBatch, Profile.Valid, SizeCount, SeenOk, PutAll, StoredAs, Store.Counted, Store.Balanced, Store.Readable;
      ok := Drain(i);
      if !ok { return; }
      LargeIsNew(batch, i, seen);
      forall k | settled <= k < i ensures batch.Canon(k) < k { NonePending(batch, settled, i, k); }
      var extents;
      extents, ok := CompressLarge(i);
      if !ok {
        if i in batch.short { ShortStops(batch, i); } else { RunStops(batch, settled, i); }
        return;
      }
      RunTo(batch, settled, i, batch.SpansOf(i).value);
      AssignedLarge(batch, Lists(settled), Lists(i + 1), i, zi, extents);
      zi := zi[i := extents];
      settled := i + 1;
    }

    /** Compresses all files.  Extents and store are those of compressing the files
        one after another, whatever order the workers finish in. */
    method CompressAll() returns (ok: bool)
      requires Valid(0) && seen == map[]
      modifies this, store
      ensures ok <==> batch.Run(|files|).Some?
      ensures ok ==> store.Valid() && store.State() == batch.Run(|files|).value.0
      ensures ok ==> forall k: nat :: k < |files| ==>
        k in zi && zi[k] == batch.Run(|files|).value.1[k] && FileReads(batch, store.spool, zi[k], k)
    {
      hide Valid, Batch.Run, Large, SeenOk, SizeCount, Batch.Canon, FileReads, StateOk, SoundBatch;
      NothingSeen(batch);
      ok := true;
      ValidAgrees(0);
      var sizes := CountSizes();
      var i := 0;
      while i < |files|
        invariant 0 <= i <= |files| && ok && Valid(i) && SeenOk(batch, i, seen)
      {
        if Large(files[i]) {
          ok := AddLarge(i);
        } else {
          ok := AddSmall(i, sizes);
        }
        if !ok { return; }
        i := i + 1;
      }
      ok := Drain(i);
      if ok {
        AllSettled();
        RunReads(batch, profile, |files|);
      }
    }

    lemma {:induction false} ValidAgrees(i: nat)
      requires Valid(i)
      ensures Agrees()
    {
    }

    /** Once the queue is empty every file has its extents. */
    lemma {:induction false} AllSettled()
      requires Valid(|files|) && pending == []
      ensures batch.Run(|files|).Some? && store.Valid() && store.State() == batch.Run(|files|).value.0
      ensures forall k: nat :: k < |files| ==> k in zi && zi[k] == batch.Run(|files|).value.1[k]
    {
      hide Batch.Canon, Batch.Run, SoundBatch, Profile.Valid, Store.Valid;
      forall k | settled <= k < |files| ensures batch.Canon(k) < k { NonePending(batch, settled, |files|, k); }
      RunShared(batch, settled, |files|);
      forall k: nat | k < |files| ensures k in zi && zi[k] == batch.Run(|files|).value.1[k] {
        NonePending(batch, settled, |files|, k);
        assert AssignedAt(batch, Lists(settled), |files|, zi, k);
        RunList(batch, |files|, k);
      }
    }
  }

  lemma {:induction false} JobIsSmall(b: Batch, settled: nat, i: nat, p: seq<FileJob>, q: nat)
    requires i <= |b.files| && Pending(b, settled, i, p) && q < |p|
    ensures p[q].index < |b.files| && b.SpansOf(p[q].index) == b.packs(p[q].index)(0, Segment(b.files[p[q].index], true))
  {
    hide Batch.Canon;
    assert JobOk(b, settled, i, p[q]);
  }

  lemma {:induction false} AssignedTells(b: Batch, lists: seq<seq<Extent>>, i: nat, zi: map<nat, seq<Extent>>, c: nat)
    requires i <= |b.files| && c < i && Assigned(b, lists, i, zi) && b.Canon(c) == c
    ensures c in zi <==> c < |lists|
  {
    hide Batch.Canon;
    assert AssignedAt(b, lists, i, zi, c);
  }

  lemma {:induction false} SeenBefore(b: Batch, i: nat, seen: map<Digest, nat>)
    requires i < |b.files| && SeenOk(b, i, seen) && Digest(b.files[i]) in seen
    ensures seen[Digest(b.files[i])] < i
  {
  }

  lemma {:induction false} NothingSeen(b: Batch)
    ensures SeenOk(b, 0, map[])
  {
  }

  lemma {:induction false} LargeIsNew(b: Batch, i: nat, seen: map<Digest, nat>)
    requires i < |b.files| && SeenOk(b, i, seen) && Large(b.files[i])
    ensures b.Canon(i) == i && SeenOk(b, i + 1, seen)
  {
    hide SizeCount;
  }
}
