/**
 Small files live whole inside one packed inode.  They are ordered hot paths first,
 appended to the packed stream, and identical ones share one range of it.
 */
module Fragments {
  import opened Bytes
  import opened SpanPacker
  import opened Spool
  import opened FileMap
  import opened ZFile
  import opened StreamPacker
  import opened ZRead
  import opened ZLoad

  // ---- the order ---------------------------------------------------------------------------

  /** A tree has one entry per path. */
  ghost predicate DistinctPaths(files: seq<Source>) {
    forall i, j :: 0 <= i < j < |files| ==> files[i].path != files[j].path
  }

  ghost predicate HasPath(files: seq<Source>, p: string) {
    exists i :: 0 <= i < |files| && files[i].path == p
  }

  /** Files are told apart by their paths, so order is a matter of multisets. */
  lemma {:induction false} CountOne(files: seq<Source>, f: Source)
    requires DistinctPaths(files)
    ensures multiset(files)[f] == if f in files then 1 else 0
    decreases |files|
  {
    if files != [] {
      var front, last := files[..|files| - 1], files[|files| - 1];
      CountOne(front, f);
      assert files == front + [last];
    }
  }

  lemma {:induction false} SameFiles(a: seq<Source>, b: seq<Source>)
    requires DistinctPaths(a) && DistinctPaths(b) && forall f :: f in a <==> f in b
    ensures multiset(a) == multiset(b)
  {
    forall f ensures multiset(a)[f] == multiset(b)[f] {
      CountOne(a, f);
      CountOne(b, f);
    }
  }

  function FileAt(files: seq<Source>, p: string): (r: Option<Source>)
    ensures r.Some? <==> HasPath(files, p)
    ensures r.Some? ==> r.value in files && r.value.path == p
  {
    if files == [] then None
    else
      var last := files[|files| - 1];
      assert forall i :: 0 <= i < |files| - 1 ==> files[..|files| - 1][i] == files[i];
      if last.path == p then Some(last) else FileAt(files[..|files| - 1], p)
  }

  /** The hot paths that exist, each once, at its first mention. */
  function HotPart(files: seq<Source>, hot: seq<string>): (r: seq<Source>) {
    if hot == [] then []
    else
      var p, before := hot[|hot| - 1], hot[..|hot| - 1];
      var f := FileAt(files, p);
      HotPart(files, before) + if p in before || f.None? then [] else [f.value]
  }

  /** The other files, in their own order. */
  function ColdPart(files: seq<Source>, hot: seq<string>): (r: seq<Source>) {
    if files == [] then []
    else
      var last := files[|files| - 1];
      ColdPart(files[..|files| - 1], hot) + if last.path in hot then [] else [last]
  }

  lemma {:induction false} OnlyFile(files: seq<Source>, f: Source)
    requires DistinctPaths(files) && f in files
    ensures FileAt(files, f.path) == Some(f)
  {
    var i :| 0 <= i < |files| && files[i] == f;
    assert HasPath(files, f.path);
    var g := FileAt(files, f.path).value;
    var j :| 0 <= j < |files| && files[j] == g;
  }

  lemma {:induction false} HotPartIs(files: seq<Source>, hot: seq<string>)
    requires DistinctPaths(files)
    ensures DistinctPaths(HotPart(files, hot)) && forall f :: f in HotPart(files, hot) <==> f in files && f.path in hot
    decreases |hot|
  {
    if hot != [] {
      var p, before := hot[|hot| - 1], hot[..|hot| - 1];
      HotPartIs(files, before);
      assert hot == before + [p];
      forall f | f in files && f.path == p ensures FileAt(files, p) == Some(f) { OnlyFile(files, f); }
    }
  }

  lemma {:induction false} ColdPartIs(files: seq<Source>, hot: seq<string>)
    requires DistinctPaths(files)
    ensures DistinctPaths(ColdPart(files, hot)) && forall f :: f in ColdPart(files, hot) <==> f in files && f.path !in hot
    decreases |files|
  {
    if files != [] {
      var front, last := files[..|files| - 1], files[|files| - 1];
      ColdPartIs(front, hot);
      assert files == front + [last];
      forall f | f in front ensures f.path != last.path {
        var i :| 0 <= i < |front| && front[i] == f;
        assert files[i].path != files[|files| - 1].path;
      }
    }
  }

  /** Whatever paths are hot, the packing order is a permutation of the files. */
  lemma {:induction false} OrderIsPermutation(files: seq<Source>, hot: seq<string>)
    requires DistinctPaths(files)
    ensures multiset(HotPart(files, hot) + ColdPart(files, hot)) == multiset(files)
  {
    HotPartIs(files, hot);
    ColdPartIs(files, hot);
    var a, b := HotPart(files, hot), ColdPart(files, hot);
    var all: seq<Source> := a + b;
    forall i, j | 0 <= i < j < |all| ensures all[i].path != all[j].path {
      if i < |a| <= j { assert a[i] in a && b[j - |a|] in b; }
    }
    SameFiles(all, files);
  }

  /** The listed paths in the form the tree's paths have. */
  function Cleaned(clean: string -> string, hot: seq<string>): (r: seq<string>)
    ensures |r| == |hot|
  {
    seq(|hot|, i requires 0 <= i < |hot| => clean("/" + hot[i]))
  }

  /** byPath finds the files whose paths are not among the given ones. */
  ghost predicate Finds(byPath: map<string, Source>, files: seq<Source>, taken: seq<string>) {
    (forall p :: p in byPath <==> HasPath(files, p) && p !in taken)
    && (forall p <- byPath :: byPath[p] in files && byPath[p].path == p)
  }

  method IndexPaths(files: seq<Source>) returns (byPath: map<string, Source>)
    ensures Finds(byPath, files, [])
  {
    hide HasPath;
    byPath := map[];
    NoPath();
    for i := 0 to |files|
      invariant forall p :: p in byPath <==> HasPath(files[..i], p)
      invariant forall p <- byPath :: byPath[p] in files && byPath[p].path == p
    {
      byPath := byPath[files[i].path := files[i]];
      HasPathSnoc(files, i);
    }
    assert files[..|files|] == files;
  }

  lemma {:induction false} NoPath()
    ensures forall p :: !HasPath([], p)
  {
  }

  lemma {:induction false} NoneHot(files: seq<Source>, hot: seq<string>, byPath: map<string, Source>)
    requires Finds(byPath, files, [])
    ensures HotPart(files, hot[..0]) == [] && Finds(byPath, files, hot[..0])
  {
    assert hot[..0] == [];
  }

  /** The next listed path is a file not taken yet, or changes nothing. */
  lemma {:induction false} HotNext(files: seq<Source>, hot: seq<string>, i: nat, byPath: map<string, Source>)
    requires DistinctPaths(files) && i < |hot| && Finds(byPath, files, hot[..i])
    ensures hot[i] in byPath ==> HotPart(files, hot[..i + 1]) == HotPart(files, hot[..i]) + [byPath[hot[i]]]
    ensures hot[i] in byPath ==> Finds(byPath - {hot[i]}, files, hot[..i + 1])
    ensures hot[i] !in byPath ==> HotPart(files, hot[..i + 1]) == HotPart(files, hot[..i]) && Finds(byPath, files, hot[..i + 1])
  {
    hide HasPath, DistinctPaths;
    assert hot[..i + 1][..i] == hot[..i] && hot[..i + 1] == hot[..i] + [hot[i]];
    if hot[i] in byPath { OnlyFile(files, byPath[hot[i]]); }
  }

  /** Orders the files: listed paths first, then the rest as they come. */
  method OrderFragments(files: seq<Source>, listed: seq<string>, clean: string -> string) returns (ordered: seq<Source>)
    requires DistinctPaths(files)
    ensures ordered == HotPart(files, Cleaned(clean, listed)) + ColdPart(files, Cleaned(clean, listed))
    ensures multiset(ordered) == multiset(files)
  {
    hide HasPath, DistinctPaths, Finds, HotPart, ColdPart;
    var byPath := IndexPaths(files);
    ordered := [];
    ghost var hot := Cleaned(clean, listed);
    NoneHot(files, hot, byPath);
    for i := 0 to |listed|
      invariant ordered == HotPart(files, hot[..i]) && Finds(byPath, files, hot[..i])
    {
      HotNext(files, hot, i, byPath);
      var path := clean("/" + listed[i]);
      if path in byPath {
        ordered := ordered + [byPath[path]];
        byPath := byPath - {path};
      }
    }
    assert hot[..|hot|] == hot;
    ordered := AddCold(files, hot, byPath, ordered);
    OrderIsPermutation(files, hot);
  }

  method AddCold(files: seq<Source>, ghost hot: seq<string>, byPath: map<string, Source>, first: seq<Source>)
    returns (ordered: seq<Source>)
    requires Finds(byPath, files, hot)
    ensures ordered == first + ColdPart(files, hot)
  {
    ordered := first;
    for i := 0 to |files|
      invariant ordered == first + ColdPart(files[..i], hot)
    {
      assert files[..i + 1][..i] == files[..i];
      assert HasPath(files, files[i].path);
      if files[i].path in byPath { ordered := ordered + [files[i]]; }
    }
    assert files[..|files|] == files;
  }

  lemma {:induction false} HasPathSnoc(files: seq<Source>, i: nat)
    requires i < |files|
    ensures forall p :: HasPath(files[..i + 1], p) <==> HasPath(files[..i], p) || p == files[i].path
  {
    forall p ensures HasPath(files[..i + 1], p) <==> HasPath(files[..i], p) || p == files[i].path {
      if HasPath(files[..i], p) {
        var k :| 0 <= k < i && files[..i][k].path == p;
        assert files[..i + 1][k].path == p;
      }
      if p == files[i].path { assert files[..i + 1][i].path == p; }
      if HasPath(files[..i + 1], p) && p != files[i].path {
        var k :| 0 <= k < i + 1 && files[..i + 1][k].path == p;
        assert files[..i][k].path == p;
      }
    }
  }

  // ---- the packed stream ---------------------------------------------------------------------

  /** The stream holds content at off. */
  ghost predicate Holds(stream: seq<byte>, off: nat, content: seq<byte>) {
    off + |content| <= |stream| && stream[off..off + |content|] == content
  }

  lemma {:induction false} HoldsGrows(stream: seq<byte>, more: seq<byte>, off: nat, content: seq<byte>)
    requires Holds(stream, off, content)
    ensures Holds(stream + more, off, content)
  {
    assert (stream + more)[off..off + |content|] == stream[off..off + |content|];
  }

  lemma {:induction false} HoldsNew(stream: seq<byte>, content: seq<byte>)
    ensures Holds(stream + content, |stream|, content)
  {
  }

  /** An earlier file has the same content. */
  predicate Earlier(files: seq<Source>, i: nat)
    requires i < |files|
  {
    exists j :: 0 <= j < i && files[j].Buffer() == files[i].Buffer()
  }

  /** What the first n files add to the packed stream: each its content, unless dedupe is
      on and an earlier file has it. */
  function StreamOf(dedupes: bool, files: seq<Source>, n: nat): (r: seq<byte>)
    requires n <= |files|
  {
    if n == 0 then []
    else StreamOf(dedupes, files, n - 1) + if dedupes && Earlier(files, n - 1) then [] else files[n - 1].Buffer()
  }

  lemma {:induction false} StreamGrows(dedupes: bool, files: seq<Source>, m: nat, n: nat)
    requires m <= n <= |files|
    ensures StreamOf(dedupes, files, m) <= StreamOf(dedupes, files, n)
    decreases n
  {
    if m < n { StreamGrows(dedupes, files, m, n - 1); }
  }

  function SizesOf(files: seq<Source>): (r: seq<nat>)
    ensures |r| == |files|
  {
    seq(|files|, i requires 0 <= i < |files| => files[i].size)
  }

  /** How many files have a size. */
  function SizeCount(files: seq<Source>, size: nat): (r: nat) { Occurs(SizesOf(files), |files|, size) }

  /** A file of unique size has no duplicate. */
  lemma {:induction false} UniqueIsNew(files: seq<Source>, i: nat)
    requires i < |files| && SizeCount(files, files[i].size) == 1
    ensures !Earlier(files, i)
  {
    hide Source.Buffer;
    if Earlier(files, i) {
      var j :| 0 <= j < i && files[j].Buffer() == files[i].Buffer();
      OccursTwice(SizesOf(files), j, i);
    }
  }

  method CountSizes(files: seq<Source>) returns (counts: map<nat, nat>)
    ensures forall size: nat :: (if size in counts then counts[size] else 0) == SizeCount(files, size)
  {
    counts := map[];
    for i := 0 to |files|
      invariant forall size: nat :: (if size in counts then counts[size] else 0) == Occurs(SizesOf(files), i, size)
    {
      counts := counts[files[i].size := (if files[i].size in counts then counts[files[i].size] else 0) + 1];
    }
  }

  class FragmentPacker {
    const packed: StreamPacker
    const dedupes: bool
    var known: map<Digest, nat>
    var packedSize: nat

    ghost predicate Valid()
      reads this, packed, packed.store
    {
      packed.store.blockSize > 0 && packed.Valid() && packed.Feeding() && packedSize == |packed.written|
      && forall d <- known :: Holds(packed.written, known[d], d.preimage)
    }

    constructor (packed: StreamPacker, dedupes: bool)
      requires packed.Valid() && packed.Feeding() && packed.written == []
      ensures Valid() && this.packed == packed && this.dedupes == dedupes && known == map[]
    {
      this.packed, this.dedupes, known, packedSize := packed, dedupes, map[], 0;
    }

    /** Some front of the stream cannot be packed. */
    ghost predicate Fails(stream: seq<byte>) { exists n: nat :: n <= |stream| && packed.Unpackable(stream[..n]) }

    lemma {:induction false} FailsBy(before: seq<byte>, more: seq<byte>, part: seq<byte>)
      requires part <= more && packed.Unpackable(before + part)
      ensures Fails(before + more)
    {
      assert (before + more)[..|before + part|] == before + part;
    }

    /** Then the whole stream cannot be, whatever follows. */
    lemma {:induction false} FailsWhole(stream: seq<byte>, all: seq<byte>)
      requires Fails(stream) && stream <= all
      ensures PackAll(packed.pack, StreamSegments(all)).None?
    {
      hide PackAll, StreamSegments;
      var n: nat :| n <= |stream| && packed.Unpackable(stream[..n]);
      packed.UnpackableStays(stream[..n], all[n..]);
      assert stream[..n] + all[n..] == all;
    }

    /** Appends a file, or finds the range of an identical earlier one. */
    method AddFragment(s: Source) returns (off: nat, ok: bool)
      requires Valid()
      modifies this, packed, packed.store
      ensures ok ==> Valid() && s.Complete() && Holds(packed.written, off, s.Buffer())
      ensures ok ==> packed.written == old(packed.written) + if dedupes && Digest(s.Buffer()) in old(known) then [] else s.Buffer()
      ensures ok ==> known == if dedupes && Digest(s.Buffer()) !in old(known) then old(known)[Digest(s.Buffer()) := off] else old(known)
      ensures ok && dedupes ==> known[Digest(s.Buffer())] == off
      ensures !ok ==> !s.Complete() || (!(dedupes && Digest(s.Buffer()) in old(known)) && Fails(old(packed.written) + s.Buffer()))
    {
      hide StreamPacker.Valid, StreamPacker.Feeding, StreamPacker.Unpackable, Source.Buffer, Fails;
      off, ok := 0, s.Complete();
      if !ok { return; }
      var buf := s.Buffer();
      if dedupes && Digest(buf) in known {
        assert packed.written + [] == packed.written;
        return known[Digest(buf)], true;
      }
      off := packedSize;
      ghost var before := packed.written;
      var n;
      n, ok := packed.Write(buf);
      if !ok {
        FailsBy(before, buf, buf[..n]);
        return;
      }
      packedSize := packedSize + |buf|;
      KeepsHolding(before, buf, known);
      if dedupes { known := known[Digest(buf) := off]; }
    }

    /** Appends a file of unique size straight from its reader. */
    method StreamFragment(s: Source) returns (off: nat, ok: bool)
      requires Valid()
      modifies this`packedSize, packed, packed.store
      ensures ok ==> Valid() && s.Complete() && Holds(packed.written, off, s.Buffer())
      ensures ok ==> packed.written == old(packed.written) + s.Buffer()
      ensures !ok ==> !s.Complete() || Fails(old(packed.written) + s.Buffer())
    {
      hide StreamPacker.Valid, StreamPacker.Feeding, StreamPacker.Unpackable, Fails;
      off := packedSize;
      ghost var before := packed.written;
      var n;
      n, ok := packed.ReadFull(s.reader, s.size);
      if !ok {
        if s.Complete() { FailsBy(before, s.Buffer(), s.reader[..n]); }
        return;
      }
      packedSize := packedSize + s.size;
      KeepsHolding(before, s.Buffer(), known);
    }

    /** What is known is what earlier files of repeated size hold. */
    ghost predicate Knows(files: seq<Source>, offs: seq<nat>)
      reads this`known
    {
      |offs| <= |files| && Findable(files, offs, known)
      && forall d <- known :: exists j :: 0 <= j < |offs| && files[j].Buffer() == d.preimage
    }

    /** A known file is an earlier one, and the other way round where sizes repeat. */
    lemma {:induction false} KnownIsEarlier(files: seq<Source>, offs: seq<nat>)
      requires Knows(files, offs) && |offs| < |files| && SizeCount(files, files[|offs|].size) != 1
      ensures Digest(files[|offs|].Buffer()) in known <==> Earlier(files, |offs|)
    {
      hide Source.Buffer, SizeCount;
      if Earlier(files, |offs|) {
        var j :| 0 <= j < |offs| && files[j].Buffer() == files[|offs|].Buffer();
        assert FindableAt(files, files[j], offs[j], known);
        assert files[j].size == |files[j].Buffer()|;
      }
    }

    /** Appends the next file. */
    method AddNext(files: seq<Source>, offs: seq<nat>, count: nat) returns (off: nat, ok: bool)
      requires Valid() && |offs| < |files| && count == SizeCount(files, files[|offs|].size)
      requires dedupes ==> Knows(files, offs)
      requires packed.written == StreamOf(dedupes, files, |offs|)
      modifies this, packed, packed.store
      ensures ok ==> Valid() && files[|offs|].Complete() && Holds(packed.written, off, files[|offs|].Buffer())
      ensures ok ==> packed.written == StreamOf(dedupes, files, |offs| + 1) && (dedupes ==> Knows(files, offs + [off]))
      ensures !ok ==> !files[|offs|].Complete() || Fails(StreamOf(dedupes, files, |offs| + 1))
    {
      hide Valid, Source.Buffer, SizeCount, Fails, Earlier, Holds;
      var s := files[|offs|];
      if dedupes { if count == 1 { UniqueIsNew(files, |offs|); } else { KnownIsEarlier(files, offs); } }
      ghost var before := known;
      if !dedupes || count == 1 {
        off, ok := StreamFragment(s);
        if ok && dedupes { KnowsMore(files, offs, off, known); }
      } else {
        off, ok := AddFragment(s);
        if ok { KnowsMore(files, offs, off, before); }
      }
    }

    lemma {:induction false} KnowsMore(files: seq<Source>, offs: seq<nat>, off: nat, before: map<Digest, nat>)
      requires |offs| < |files| && Findable(files, offs, before) && files[|offs|].Complete()
      requires forall d <- before :: exists j :: 0 <= j < |offs| && files[j].Buffer() == d.preimage
      requires known == before || known == before[Digest(files[|offs|].Buffer()) := off]
      requires Digest(files[|offs|].Buffer()) in before ==> known == before
      requires SizeCount(files, files[|offs|].size) == 1 || (Digest(files[|offs|].Buffer()) in known && known[Digest(files[|offs|].Buffer())] == off)
      ensures Knows(files, offs + [off])
    {
      hide Source.Buffer, SizeCount;
      var all := offs + [off];
      forall i | 0 <= i < |all| ensures FindableAt(files, files[i], all[i], known) {
        if i < |offs| { assert FindableAt(files, files[i], offs[i], before); }
      }
      forall d <- known ensures exists j :: 0 <= j < |all| && files[j].Buffer() == d.preimage {
        if d in before {
          var j :| 0 <= j < |offs| && files[j].Buffer() == d.preimage;
        } else {
          assert files[|offs|].Buffer() == d.preimage;
        }
      }
    }

    /** Appends all files in the given order: the stream is their content, each one's
        range of it is its content, and identical files share a range when dedupe is on.
        It fails exactly when a file is short or the stream cannot be packed. */
    method AddAll(files: seq<Source>) returns (offs: seq<nat>, ok: bool)
      requires Valid() && known == map[] && packed.written == []
      modifies this, packed, packed.store
      ensures ok ==> Valid() && |offs| == |files| && Placed(packed.written, files, offs) && (dedupes ==> Shared(files, offs))
      ensures ok ==> packed.written == StreamOf(dedupes, files, |files|)
      ensures !ok ==> (exists s <- files :: !s.Complete())
                      || PackAll(packed.pack, StreamSegments(StreamOf(dedupes, files, |files|))).None?
    {
      hide *;
      var counts := CountSizes(files);
      offs, ok := [], true;
      KnowsNothing(files);
      NothingPlaced(dedupes, files);
      while |offs| < |files|
        invariant |offs| <= |files| && ok && Valid() && Placed(packed.written, files, offs)
        invariant packed.written == StreamOf(dedupes, files, |offs|) && (dedupes ==> Knows(files, offs))
      {
        var s := files[|offs|];
        var off;
        off, ok := AddNext(files, offs, if s.size in counts then counts[s.size] else 0);
        if !ok {
          assert s in files;
          if s.Complete() {
            StreamGrows(dedupes, files, |offs| + 1, |files|);
            FailsWhole(StreamOf(dedupes, files, |offs| + 1), StreamOf(dedupes, files, |files|));
          }
          return;
        }
        StreamGrows(dedupes, files, |offs|, |offs| + 1);
        PlacedNext(StreamOf(dedupes, files, |offs|), packed.written, files, offs, off);
        offs := offs + [off];
      }
      if dedupes {
        KnowsFindable(files, offs);
        FindableShares(files, offs, known);
      }
    }

    lemma {:induction false} KnowsNothing(files: seq<Source>)
      requires known == map[]
      ensures Knows(files, [])
    {
    }

    lemma {:induction false} KnowsFindable(files: seq<Source>, offs: seq<nat>)
      requires Knows(files, offs)
      ensures Findable(files, offs, known)
    {
    }

    /** Packs all files into the packed inode, listed paths first.  It succeeds exactly
        when every file can be read and their stream can be packed; its extents then
        cover that stream, in which every file has its range. */
    method Pack(files: seq<Source>, listed: seq<string>, clean: string -> string)
      returns (ordered: seq<Source>, offs: seq<nat>, ok: bool)
      requires Valid() && known == map[] && packed.written == [] && DistinctPaths(files)
      modifies this, packed, packed.store
      ensures multiset(ordered) == multiset(files)
      ensures ordered == HotPart(files, Cleaned(clean, listed)) + ColdPart(files, Cleaned(clean, listed))
      ensures ok <==> (forall s <- files :: s.Complete()) && PackAll(packed.pack, StreamSegments(StreamOf(dedupes, ordered, |ordered|))).Some?
      ensures ok ==> |offs| == |ordered| && Placed(packed.written, ordered, offs) && (dedupes ==> Shared(ordered, offs))
      ensures ok ==> packed.written == StreamOf(dedupes, ordered, |ordered|) && PackAll(packed.pack, StreamSegments(packed.written)).Some?
      ensures ok ==> StoredInOrder(packed.store, packed.start, packed.extents, PackAll(packed.pack, StreamSegments(packed.written)).value)
      ensures packed.store.blockSize > 0
      ensures ok ==> Partitions(packed.store.blockSize, packed.profile, true, PackAll(packed.pack, StreamSegments(packed.written)).value, packed.written)
    {
      hide StreamPacker.Valid, StreamPacker.Feeding, PackAll, StreamSegments, StoredInOrder, Partitions, Shared, Holds, Source.Buffer, StreamOf;
      ordered := OrderFragments(files, listed, clean);
      SameMembers(files, ordered);
      offs, ok := AddAll(ordered);
      if !ok { return; }
      AllComplete(packed.written, ordered, offs);
      ok := packed.Finish();
    }
  }

  lemma {:induction false} NothingPlaced(dedupes: bool, files: seq<Source>)
    ensures StreamOf(dedupes, files, 0) == [] && Placed([], files, [])
  {
  }

  lemma {:induction false} PlacedNext(stream: seq<byte>, bigger: seq<byte>, files: seq<Source>, offs: seq<nat>, off: nat)
    requires Placed(stream, files, offs) && stream <= bigger && |offs| < |files|
    requires files[|offs|].Complete() && Holds(bigger, off, files[|offs|].Buffer())
    ensures Placed(bigger, files, offs + [off])
  {
    hide Holds, Source.Buffer;
    PlacedGrows(stream, bigger, files, offs);
  }

  lemma {:induction false} SameMembers(files: seq<Source>, ordered: seq<Source>)
    requires multiset(files) == multiset(ordered)
    ensures forall s :: s in files <==> s in ordered
  {
    forall s ensures s in files <==> s in ordered {
      assert s in files <==> s in multiset(files);
      assert s in ordered <==> s in multiset(ordered);
    }
  }

  lemma {:induction false} AllComplete(stream: seq<byte>, files: seq<Source>, offs: seq<nat>)
    requires Placed(stream, files, offs) && |offs| == |files|
    ensures forall s <- files :: s.Complete()
  {
    hide Holds;
  }

  ghost predicate Placed(stream: seq<byte>, files: seq<Source>, offs: seq<nat>) {
    |offs| <= |files| && forall i :: 0 <= i < |offs| ==> files[i].Complete() && Holds(stream, offs[i], files[i].Buffer())
  }

  lemma {:induction false} PlacedGrows(stream: seq<byte>, bigger: seq<byte>, files: seq<Source>, offs: seq<nat>)
    requires Placed(stream, files, offs) && stream <= bigger
    ensures Placed(bigger, files, offs)
  {
    hide Holds;
    forall i | 0 <= i < |offs| ensures Holds(bigger, offs[i], files[i].Buffer()) {
      HoldsGrows(stream, bigger[|stream|..], offs[i], files[i].Buffer());
      assert stream + bigger[|stream|..] == bigger;
    }
  }

  /** A file of repeated size can be found again by its content. */
  ghost predicate Findable(files: seq<Source>, offs: seq<nat>, known: map<Digest, nat>) {
    |offs| <= |files| && forall i :: 0 <= i < |offs| ==> FindableAt(files, files[i], offs[i], known)
  }

  ghost predicate FindableAt(files: seq<Source>, s: Source, off: nat, known: map<Digest, nat>) {
    s.Complete()
    && (SizeCount(files, s.size) == 1 || (Digest(s.Buffer()) in known && known[Digest(s.Buffer())] == off))
  }

  /** Identical files have one range. */
  ghost predicate Shared(files: seq<Source>, offs: seq<nat>) {
    |offs| <= |files| && forall i, j :: 0 <= i < j < |offs| && Identical(files[i], files[j]) ==> offs[i] == offs[j]
  }

  predicate Identical(a: Source, b: Source) {
    a.Complete() && b.Complete() && a.Buffer() == b.Buffer()
  }

  lemma {:induction false} FindableShares(files: seq<Source>, offs: seq<nat>, known: map<Digest, nat>)
    requires Findable(files, offs, known)
    ensures Shared(files, offs)
  {
    hide Occurs;
    forall i, j | 0 <= i < j < |offs| && Identical(files[i], files[j]) ensures offs[i] == offs[j] {
      assert FindableAt(files, files[i], offs[i], known) && FindableAt(files, files[j], offs[j], known);
      assert files[i].size == |files[i].Buffer()| == |files[j].Buffer()| == files[j].size;
      OccursTwice(SizesOf(files), i, j);
    }
  }

  lemma {:induction false} KeepsHolding(stream: seq<byte>, more: seq<byte>, known: map<Digest, nat>)
    requires forall d <- known :: Holds(stream, known[d], d.preimage)
    ensures forall d <- known :: Holds(stream + more, known[d], d.preimage)
    ensures Holds(stream + more, |stream|, more)
  {
    hide Holds;
    HoldsNew(stream, more);
    forall d <- known ensures Holds(stream + more, known[d], d.preimage) {
      HoldsGrows(stream, more, known[d], d.preimage);
    }
  }

  // ---- reading a fragment ---------------------------------------------------------------------

  /** An inode that reads back the packed stream serves every file placed in it. */
  lemma {:induction false} FragmentServed(packed: Inode, bs: nat, v: View, stream: seq<byte>, off: nat, content: seq<byte>)
    requires 0 < bs == packed.bs && packed.Indexed(v.m, v.eof) && packed.CacheOk(v.m)
    requires v.m.Content() == stream && Holds(stream, off, content)
    ensures Serves(InPacked(off), packed, bs, v, content)
  {
    hide Inode.Indexed, Inode.CacheOk;
  }

  /** A small file's block comes back exactly, whichever fragments were read before and
      whatever other readers do meanwhile. */
  method ReadFragment(packed: Inode, bs: nat, ghost v: View, ghost stream: seq<byte>, off: nat, size: nat,
                      ghost content: seq<byte>, pos: nat)
    returns (b: Option<Block>)
    requires 0 < bs == packed.bs && packed.Indexed(v.m, v.eof) && packed.CacheOk(v.m)
    requires v.m.Content() == stream && Holds(stream, off, content) && pos < size == |content|
    modifies packed
    ensures packed.CacheOk(v.m) && b == Some(BlockOf(content, bs, pos))
  {
    hide Inode.Indexed, Inode.CacheOk, Flatten, BlockOf, Holds;
    FragmentServed(packed, bs, v, stream, off, content);
    b := LoadBlock(InPacked(off), packed, bs, size, v, content, pos);
  }
}
