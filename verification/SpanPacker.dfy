/**
 Cutting a stream into spans.  Each span becomes one physical cluster: as much
 input as the block compressor squeezes into the cluster budget, or raw blocks
 when compression would not save a block.
 */
module SpanPacker {
  import opened Bytes
  import opened Arith
  import opened Lz4Format
  import opened Lz4Emit
  import opened Lz4Finder
  import opened Lz4Plan
  import opened Lz4Stable
  import opened Lz4Encoder

  /** Compressed and decompressed bounds of one extent, in bytes. */
  datatype Profile = Profile(pclusterSize: nat, maxExtentSize: nat)
  {
    /** The bounds the options are checked against, and one they are not: a block
        count must stay below the flag bit it shares an index field with. */
    ghost predicate Valid(bs: nat) {
      0 < bs && 0 < pclusterSize && 0 < maxExtentSize
      && pclusterSize % bs == 0 && maxExtentSize % bs == 0
      && pclusterSize <= MAX_PCLUSTER && maxExtentSize <= MAX_EXTENT
      && pclusterSize < bs * CBLKCNT
    }
  }

  const MAX_PCLUSTER := 0x10_0000
  const MAX_EXTENT := 0xC0_0000

  /** One extent to be: the input it covers and its encoding; an empty encoding
      means the span is stored raw. */
  datatype PackedSpan = PackedSpan(raw: seq<byte>, comp: seq<byte>, segmentEnd: bool)

  /** A compressed length worth storing: within budget and saving a block. */
  predicate Fits(bs: nat, pc: nat, span: int, compLen: int) {
    0 < compLen <= pc && compLen <= span - bs
  }

  ghost predicate SpanOk(bs: nat, profile: Profile, s: PackedSpan) {
    0 < |s.raw| <= profile.maxExtentSize
    && (s.comp != [] ==> Fits(bs, profile.pclusterSize, |s.raw|, |s.comp|) && Encodes(s.comp, s.raw))
  }

  /** Only the end of a final stream may leave a span unaligned. */
  predicate Cut(bs: nat, len: int, final: bool, n: int)
    requires bs > 0
  {
    0 < n <= len && (n % bs == 0 || (final && n == len))
  }

  /** A candidate span brought into range: at least a cluster's worth, at most the
      window, and aligned unless it is the end of a final stream. */
  function Clamp(bs: nat, pc: nat, len: nat, final: bool, n: int): (r: int)
    requires bs > 0 && pc > 0 && pc % bs == 0 && len > 0 && (final || len % bs == 0)
    ensures Cut(bs, len, final, r)
    ensures n <= pc ==> r <= pc
  {
    if n >= len && final then len
    else
      var inWindow := Min(n, len);
      var grown := if inWindow < pc then Min(pc, len) else inWindow;
      var aligned := grown - grown % bs;
      if aligned > 0 && (!final || grown != len) then AlignDown(grown, bs); aligned
      else
        assert !final ==> len % bs == 0 && bs <= len by { if !final { MultipleAtLeast(len, bs); } }
        MultipleAtLeast(pc, bs);
        grown
  }

  /** Where to probe next, or None to stop: bisect between the largest fit and the
      smallest overflow, or scale by the last probe's ratio. */
  function Steer(bs: nat, pc: nat, len: nat, final: bool, cand: nat, n: nat, fit: bool, best: nat, tooBig: nat): (r: Option<nat>)
    requires bs > 0 && pc > 0 && pc % bs == 0 && (final || len % bs == 0) && Cut(bs, len, final, cand)
    requires fit ==> n > 0 && best == cand
    ensures r.Some? ==> Cut(bs, len, final, r.value) && (best != 0 ==> best < r.value)
  {
    if fit then
      if n >= pc * 31 / 32 || cand == len then None
      else
        var grown := if tooBig != 0 then Clamp(bs, pc, len, final, (best + tooBig) / 2)
                     else Clamp(bs, pc, len, final, cand * pc * 31 / 32 / n);
        if grown <= best || (tooBig != 0 && grown >= tooBig) then None else Some(grown)
    else if best != 0 then
      var shrunk := Clamp(bs, pc, len, final, (best + tooBig) / 2);
      if shrunk <= best || shrunk >= tooBig then None else Some(shrunk)
    else
      var shrunk := Clamp(bs, pc, len, final, cand * pc * 15 / 16 / (if n == 0 then cand else n));
      if shrunk >= cand then None else Some(shrunk)
  }

  lemma {:induction false} CeilAtMost(n: nat, bs: nat, blocks: nat)
    requires bs > 0 && n <= bs * blocks
    ensures CeilDiv(n, bs) <= blocks
  {
    CeilBounds(n, bs);
    if CeilDiv(n, bs) > blocks { MulMonotone(bs, blocks + 1, CeilDiv(n, bs)); }
  }

  // ---- partitions --------------------------------------------------------------

  /** The input the spans cover, in order. */
  function Raws(spans: seq<PackedSpan>): (r: seq<byte>) {
    if spans == [] then [] else Raws(spans[..|spans| - 1]) + spans[|spans| - 1].raw
  }

  lemma {:induction false} RawsSnoc(spans: seq<PackedSpan>, s: PackedSpan)
    ensures Raws(spans + [s]) == Raws(spans) + s.raw
  {
    assert (spans + [s])[..|spans|] == spans;
  }

  ghost predicate AllSpansOk(bs: nat, profile: Profile, spans: seq<PackedSpan>) {
    forall s <- spans :: SpanOk(bs, profile, s)
  }

  /** The spans cover buf exactly, each is storable, and all are aligned but
      possibly the last of a final stream. */
  ghost predicate Partitions(bs: nat, profile: Profile, final: bool, spans: seq<PackedSpan>, buf: seq<byte>)
    requires bs > 0
  {
    Raws(spans) == buf && AllSpansOk(bs, profile, spans)
    && forall k :: 0 <= k < |spans| ==> |spans[k].raw| % bs == 0 || (final && k == |spans| - 1)
  }

  lemma {:induction false} MarkEnd(bs: nat, profile: Profile, spans: seq<PackedSpan>)
    requires |spans| > 0 && AllSpansOk(bs, profile, spans)
    ensures var last := |spans| - 1;
      var marked := spans[last := spans[last].(segmentEnd := true)];
      Raws(marked) == Raws(spans) && AllSpansOk(bs, profile, marked)
  {
    var last := |spans| - 1;
    var marked := spans[last := spans[last].(segmentEnd := true)];
    assert marked[..last] == spans[..last];
    assert SpanOk(bs, profile, spans[last]);
  }

  // ---- the worker ------------------------------------------------------------

  /** The vendored fast compressor, as far as packing relies on it: an error, no
      output, or a valid block within the capacity. */
  ghost predicate SoundCompressor(fast: (seq<byte>, nat) -> Option<seq<byte>>) {
    forall src: seq<byte>, capacity: nat :: SoundResult(src, capacity, fast(src, capacity))
  }

  ghost predicate SoundResult(src: seq<byte>, capacity: nat, r: Option<seq<byte>>) {
    r.Some? ==> r.value == [] || (|r.value| <= capacity && Encodes(r.value, src))
  }

  /** An encoder and the two scratch buffers that probes and results alternate in; both
      hold the encoding of any extent. */
  class Worker {
    const hc: bool
    const encoder: Encoder
    const fast: (seq<byte>, nat) -> Option<seq<byte>>
    const blockSize: nat
    const maxExtent: nat
    var probe: array<byte>
    var kept: array<byte>

    ghost predicate Valid()
      reads this, encoder
    {
      blockSize > 0 && encoder.Valid() && SoundCompressor(fast) && probe != kept
      && probe.Length == kept.Length == CompressBlockBound(maxExtent)
      && encoder.Apart(probe) && encoder.Apart(kept)
    }

    /** Large enough for the profile. */
    ghost predicate Serves(profile: Profile) { profile.Valid(blockSize) && profile.maxExtentSize <= maxExtent }

    /** The fast compressor fails on src; the other one never does. */
    predicate FailsOn(src: seq<byte>) { !hc && fast(src, CompressBlockBound(maxExtent)).None? }

    /** It fails on some stretch of buf. */
    ghost predicate FailsIn(buf: seq<byte>) {
      exists a: nat, b: nat :: a < b <= |buf| && FailsOn(buf[a..b])
    }

    lemma {:induction false} FailsInside(buf: seq<byte>, a: nat, b: nat)
      requires a <= b <= |buf| && FailsIn(buf[a..b])
      ensures FailsIn(buf)
    {
      hide FailsOn;
      var i: nat, j: nat :| i < j <= |buf[a..b]| && FailsOn(buf[a..b][i..j]);
      SliceTwice(buf, a, b, i, j);
      assert a + i < a + j <= |buf|;
    }

    /** How long the compressor's encoding of src is; 0 for none. */
    ghost function Squeezed(src: seq<byte>): (n: nat) {
      if hc then
        GreedyPlanOk(src, []);
        |EncodeBlock(GreedyPlan(src, []).Complete(src))|
      else
        var r := fast(src, CompressBlockBound(maxExtent));
        if r.None? then 0 else |r.value|
    }

    /** It fits the cluster and saves a block. */
    ghost predicate Saves(src: seq<byte>, pc: nat) { Fits(blockSize, pc, |src|, Squeezed(src)) }

    /** The same of the first n bytes of window. */
    ghost predicate Compresses(window: seq<byte>, pc: nat, n: nat) { n <= |window| && Saves(window[..n], pc) }

    constructor (hc: bool, fast: (seq<byte>, nat) -> Option<seq<byte>>, blockSize: nat, maxExtent: nat)
      requires blockSize > 0 && SoundCompressor(fast)
      ensures Valid() && this.blockSize == blockSize && this.hc == hc && this.maxExtent == maxExtent
      ensures fresh(encoder) && fresh(encoder.head) && fresh(encoder.chain) && fresh(probe) && fresh(kept)
    {
      this.hc, this.fast, this.blockSize, this.maxExtent := hc, fast, blockSize, maxExtent;
      encoder := new Encoder();
      probe := new byte[CompressBlockBound(maxExtent)](_ => 0);
      kept := new byte[CompressBlockBound(maxExtent)](_ => 0);
    }

    /** Runs the block compressor into the probe buffer, where its encoding of any extent
        fits.  The high-compression encoder always yields one, and always the same,
        whatever it encoded before. */
    method Compress(src: seq<byte>) returns (n: nat, ok: bool)
      requires Valid() && |src| <= maxExtent
      modifies encoder, encoder.head, encoder.chain, probe
      ensures Valid() && (encoder.chain == old(encoder.chain) || fresh(encoder.chain))
      ensures ok && n != 0 ==> n <= probe.Length && Encodes(probe[..n], src)
      ensures ok <==> !FailsOn(src)
      ensures ok ==> n == Squeezed(src)
      ensures hc ==> n != 0 && GreedyPlan(src, []).Ok(src) && probe[..n] == EncodeBlock(GreedyPlan(src, []).Complete(src))
    {
      hide Encodes, EncodeBlock, GreedyPlan, Plan.Ok;
      if hc {
        ghost var plan := GreedyPlan(src, encoder.chain[..]);
        GreedyPlanOk(src, encoder.chain[..]);
        PlanBound(src, plan);
        RefusedWithin(src, plan, 0, 0);
        GreedyPlanStable(src, encoder.chain[..], []);
        BoundGrows(|src|, maxExtent);
        n := encoder.CompressBlock(src, probe);
        return n, true;
      }
      var r := fast(src, probe.Length);
      assert SoundResult(src, probe.Length, r);
      if r.None? || r.value == [] { return 0, r.Some?; }
      n := CopyInto(probe, 0, r.value);
      assert probe[..n] == r.value;
      ok := true;
    }

    lemma {:induction false} BoundGrows(m: nat, n: nat)
      requires m <= n
      ensures CompressBlockBound(m) <= CompressBlockBound(n)
    {
    }

    /** A span whose encoding sits in the kept buffer. */
    ghost predicate Holds(window: seq<byte>, pc: nat, final: bool, best: int, bestLen: int)
      reads this, kept
    {
      blockSize > 0 && Cut(blockSize, |window|, final, best) && Fits(blockSize, pc, best, bestLen)
      && bestLen <= kept.Length && Encodes(kept[..bestLen], window[..best])
    }

    /** Probes one candidate; a fitting result is swapped into the kept buffer. */
    method Probe(window: seq<byte>, pc: nat, final: bool, cand: nat) returns (n: nat, fit: bool, ok: bool)
      requires Valid() && Cut(blockSize, |window|, final, cand) && |window| <= maxExtent
      modifies this, encoder, encoder.head, encoder.chain, probe
      ensures Valid() && (encoder.chain == old(encoder.chain) || fresh(encoder.chain))
      ensures if fit then ok && Holds(window, pc, final, cand, n) && kept == old(probe) && probe == old(kept)
              else kept == old(kept) && probe == old(probe) && kept[..] == old(kept[..])
      ensures ok ==> n == Squeezed(window[..cand]) && fit == Saves(window[..cand], pc)
      ensures ok <==> !FailsOn(window[..cand])
    {
      hide Encodes, FailsOn, GreedyPlan, EncodeBlock, Squeezed;
      n, ok := Compress(window[..cand]);
      fit := ok && Fits(blockSize, pc, cand, n);
      if fit { probe, kept := kept, probe; }
    }

    // ---- the guided search ------------------------------------------------------

    /** The largest of the first n tried spans that saves a block, or 0. */
    ghost function Largest(window: seq<byte>, pc: nat, tried: seq<nat>, n: nat): (r: nat)
      requires n <= |tried|
    {
      if n == 0 then 0
      else
        var before := Largest(window, pc, tried, n - 1);
        if Compresses(window, pc, tried[n - 1]) then Max(before, tried[n - 1]) else before
    }

    /** The last of the first n tried spans that does not, or 0. */
    ghost function Overflow(window: seq<byte>, pc: nat, tried: seq<nat>, n: nat): (r: nat)
      requires n <= |tried|
    {
      if n == 0 then 0
      else if Compresses(window, pc, tried[n - 1]) then Overflow(window, pc, tried, n - 1) else tried[n - 1]
    }

    lemma {:induction false} LargestIs(window: seq<byte>, pc: nat, tried: seq<nat>, n: nat)
      requires n <= |tried|
      ensures forall i :: 0 <= i < n && Compresses(window, pc, tried[i]) ==> tried[i] <= Largest(window, pc, tried, n)
      ensures Largest(window, pc, tried, n) != 0 ==>
        Largest(window, pc, tried, n) in tried[..n] && Compresses(window, pc, Largest(window, pc, tried, n))
      decreases n
    {
      hide Compresses;
      if n > 0 {
        LargestIs(window, pc, tried, n - 1);
        assert tried[..n] == tried[..n - 1] + [tried[n - 1]];
      }
    }

    /** Where the search goes after the first n tried spans. */
    ghost function Turn(window: seq<byte>, pc: nat, final: bool, tried: seq<nat>, n: nat): (r: Option<nat>)
      requires blockSize > 0 && pc > 0 && pc % blockSize == 0 && (final || |window| % blockSize == 0)
      requires 0 < n <= |tried| && Cut(blockSize, |window|, final, tried[n - 1])
      requires Compresses(window, pc, tried[n - 1]) ==> Largest(window, pc, tried, n) == tried[n - 1]
    {
      hide Squeezed;
      var cand := tried[n - 1];
      Steer(blockSize, pc, |window|, final, cand, Squeezed(window[..cand]), Compresses(window, pc, cand), Largest(window, pc, tried, n),
            Overflow(window, pc, tried, n))
    }

    /** Each span tried is the one the search turns to after those before it; a span that
        saves a block is larger than all such before it. */
    ghost predicate Guided(window: seq<byte>, pc: nat, final: bool, tried: seq<nat>)
      requires blockSize > 0 && pc > 0 && pc % blockSize == 0 && (final || |window| % blockSize == 0)
    {
      (forall n: nat :: n < |tried| ==> Cut(blockSize, |window|, final, tried[n]))
      && (forall n: nat :: 0 < n <= |tried| ==> Ahead(window, pc, tried, n))
      && forall n: nat :: 0 < n < |tried| ==> Turned(window, pc, final, tried, n)
    }

    ghost predicate Turned(window: seq<byte>, pc: nat, final: bool, tried: seq<nat>, n: nat)
      requires blockSize > 0 && pc > 0 && pc % blockSize == 0 && (final || |window| % blockSize == 0) && 0 < n < |tried|
    {
      Cut(blockSize, |window|, final, tried[n - 1]) && Ahead(window, pc, tried, n) && Turn(window, pc, final, tried, n) == Some(tried[n])
    }

    ghost predicate Ahead(window: seq<byte>, pc: nat, tried: seq<nat>, n: nat)
      requires 0 < n <= |tried|
    {
      Compresses(window, pc, tried[n - 1]) ==> Largest(window, pc, tried, n) == tried[n - 1]
    }

    /** After all of tried the search turns to c. */
    ghost predicate Leads(window: seq<byte>, pc: nat, final: bool, tried: seq<nat>, c: nat)
      requires blockSize > 0 && pc > 0 && pc % blockSize == 0 && (final || |window| % blockSize == 0) && tried != []
    {
      var n := |tried|;
      Cut(blockSize, |window|, final, tried[n - 1]) && Ahead(window, pc, tried, n) && Turn(window, pc, final, tried, n) == Some(c)
    }

    /** The search has seen enough: five probes, or no other span to try. */
    ghost predicate Exhausted(window: seq<byte>, pc: nat, final: bool, tried: seq<nat>)
      requires blockSize > 0 && pc > 0 && pc % blockSize == 0 && (final || |window| % blockSize == 0)
      requires Guided(window, pc, final, tried) && tried != []
    {
      assert Ahead(window, pc, tried, |tried|) && Cut(blockSize, |window|, final, tried[|tried| - 1]);
      |tried| >= 5 || Turn(window, pc, final, tried, |tried|) == None
    }

    lemma {:induction false} LargestPrefix(window: seq<byte>, pc: nat, tried: seq<nat>, c: nat, n: nat)
      requires n <= |tried|
      ensures Largest(window, pc, tried + [c], n) == Largest(window, pc, tried, n)
      ensures Overflow(window, pc, tried + [c], n) == Overflow(window, pc, tried, n)
      decreases n
    {
      hide Compresses;
      if n > 0 { LargestPrefix(window, pc, tried, c, n - 1); }
    }

    /** One more probe of the guided search. */
    lemma {:induction false} GuidedNext(window: seq<byte>, pc: nat, final: bool, tried: seq<nat>, c: nat)
      requires blockSize > 0 && pc > 0 && pc % blockSize == 0 && (final || |window| % blockSize == 0)
      requires Guided(window, pc, final, tried) && Cut(blockSize, |window|, final, c)
      requires Largest(window, pc, tried, |tried|) != 0 ==> Largest(window, pc, tried, |tried|) < c
      requires tried != [] ==> Leads(window, pc, final, tried, c)
      ensures Guided(window, pc, final, tried + [c])
      ensures Largest(window, pc, tried + [c], |tried| + 1) == if Compresses(window, pc, c) then c else Largest(window, pc, tried, |tried|)
      ensures Overflow(window, pc, tried + [c], |tried| + 1) == if Compresses(window, pc, c) then Overflow(window, pc, tried, |tried|) else c
    {
      hide Compresses, Squeezed, Cut, Steer;
      var more := tried + [c];
      forall n: nat | n <= |tried|
        ensures Largest(window, pc, more, n) == Largest(window, pc, tried, n) && Overflow(window, pc, more, n) == Overflow(window, pc, tried, n)
      {
        LargestPrefix(window, pc, tried, c, n);
      }
      forall n: nat | 0 < n <= |more| ensures Ahead(window, pc, more, n) {
        if n <= |tried| { assert Ahead(window, pc, tried, n); }
      }
      forall n: nat | 0 < n < |more| ensures Turned(window, pc, final, more, n) {
        assert Ahead(window, pc, tried, n) && Ahead(window, pc, more, n);
        assert Cut(blockSize, |window|, final, tried[n - 1]);
        if n < |tried| { assert Turned(window, pc, final, tried, n); }
      }
    }

    /** The guided search: up to five probes, keeping the largest span that fit. */
    method Search(window: seq<byte>, pc: nat, final: bool, first: nat)
      returns (best: nat, bestLen: nat, lastCand: nat, ok: bool, ghost tried: seq<nat>)
      requires Valid() && 0 < pc && pc % blockSize == 0 && (final || |window| % blockSize == 0)
      requires Cut(blockSize, |window|, final, first) && |window| <= maxExtent
      modifies this, encoder, encoder.head, encoder.chain, probe, kept
      ensures Valid() && (encoder.chain == old(encoder.chain) || fresh(encoder.chain))
      ensures {probe, kept} == old({probe, kept})
      ensures ok ==> tried != [] && tried[0] == first && Guided(window, pc, final, tried) && Exhausted(window, pc, final, tried)
      ensures ok ==> best == Largest(window, pc, tried, |tried|) && lastCand == tried[|tried| - 1]
      ensures ok && best != 0 ==> Holds(window, pc, final, best, bestLen) && bestLen == Squeezed(window[..best])
      ensures ok || FailsIn(window)
    {
      hide Encodes, Clamp, SoundCompressor, FailsOn, Squeezed, Steer;
      best, bestLen, lastCand, ok, tried := 0, 0, 0, true, [];
      var cand, tooBig, round := first, 0, 0;
      while round < 5
        invariant 0 <= round <= 5 && round == |tried| && Valid() && (encoder.chain == old(encoder.chain) || fresh(encoder.chain))
        invariant {probe, kept} == old({probe, kept})
        invariant Cut(blockSize, |window|, final, cand) && Guided(window, pc, final, tried) && (tried == [] ==> cand == first)
        invariant best == Largest(window, pc, tried, |tried|) && tooBig == Overflow(window, pc, tried, |tried|)
        invariant best != 0 ==> best < cand && Holds(window, pc, final, best, bestLen) && bestLen == Squeezed(window[..best])
        invariant tried != [] ==> tried[0] == first && lastCand == tried[|tried| - 1] && Leads(window, pc, final, tried, cand)
      {
        round := round + 1;
        var n, fit;
        n, fit, ok := Probe(window, pc, final, cand);
        if !ok {
          assert window[0..cand] == window[..cand];
          return;
        }
        GuidedNext(window, pc, final, tried, cand);
        tried := tried + [cand];
        lastCand := cand;
        if fit { best, bestLen := cand, n; } else { tooBig := cand; }
        assert Ahead(window, pc, tried, |tried|);
        var next := Steer(blockSize, pc, |window|, final, cand, n, fit, best, tooBig);
        if next.None? { break; }
        SteerAhead(window, pc, final, cand, n, fit, best, tooBig);
        cand := next.value;
      }
    }

    lemma {:induction false} SteerAhead(window: seq<byte>, pc: nat, final: bool, cand: nat, n: nat, fit: bool, best: nat, tooBig: nat)
      requires blockSize > 0 && pc > 0 && pc % blockSize == 0 && (final || |window| % blockSize == 0) && Cut(blockSize, |window|, final, cand)
      requires fit ==> n > 0 && best == cand
      ensures var r := Steer(blockSize, pc, |window|, final, cand, n, fit, best, tooBig);
        r.Some? ==> Cut(blockSize, |window|, final, r.value) && (best != 0 ==> best < r.value)
    {
    }

    /** The span the search begins with, from the ratio of the spans before. */
    function FirstTry(window: seq<byte>, pc: nat, final: bool, ratio: real): (r: nat)
      requires blockSize > 0 && pc > 0 && pc % blockSize == 0 && |window| > 0 && (final || |window| % blockSize == 0)
    {
      Clamp(blockSize, pc, |window|, final, (pc as real / (if ratio > 0.02 then ratio else 0.02) * 0.98).Floor)
    }

    /** What is packed from window when the given spans are tried: the largest that saves a
        block; when none does, a single cluster's input, compressed if that saves one, and
        raw only if it does not. */
    ghost predicate ChosenBy(window: seq<byte>, pc: nat, final: bool, ratio: real, tried: seq<nat>, span: nat, raw: bool)
    {
      blockSize > 0 && pc > 0 && pc % blockSize == 0 && |window| > 0 && (final || |window| % blockSize == 0)
      && tried != [] && tried[0] == FirstTry(window, pc, final, ratio) && Guided(window, pc, final, tried) && Exhausted(window, pc, final, tried)
      && Cut(blockSize, |window|, final, span)
      && var best := Largest(window, pc, tried, |tried|);
         if best != 0 then span == best && !raw
         else span == Clamp(blockSize, pc, |window|, final, pc) && raw == !Compresses(window, pc, span)
    }

    ghost predicate Chosen(window: seq<byte>, pc: nat, final: bool, span: nat, raw: bool) {
      exists ratio: real, tried: seq<nat> :: ChosenBy(window, pc, final, ratio, tried, span, raw)
    }

    /** A raw span is one whose compression saves no block, and as large as a cluster's
        input can be; a compressed one saves a block, and none that was tried and saves
        one is larger. */
    lemma {:induction false} ChosenMeans(window: seq<byte>, pc: nat, final: bool, ratio: real, tried: seq<nat>, span: nat, raw: bool)
      requires ChosenBy(window, pc, final, ratio, tried, span, raw)
      ensures span <= |window| && raw == !Compresses(window, pc, span) && (raw ==> span == Clamp(blockSize, pc, |window|, final, pc))
      ensures forall i :: 0 <= i < |tried| && Compresses(window, pc, tried[i]) ==> !raw && tried[i] <= span
    {
      hide Compresses, Steer, Clamp;
      LargestIs(window, pc, tried, |tried|);
    }

    /** Chooses how much of window one cluster should hold.  compLen == 0 means the
        span is to be stored raw; otherwise its encoding is in the kept buffer. */
    method PackSpan(window: seq<byte>, profile: Profile, final: bool, ratio: real)
      returns (span: nat, compLen: nat, newRatio: real, ok: bool, ghost tried: seq<nat>)
      requires Valid() && Serves(profile) && 0 < |window| <= profile.maxExtentSize && (final || |window| % blockSize == 0)
      modifies this, encoder, encoder.head, encoder.chain, probe, kept
      ensures Valid() && (encoder.chain == old(encoder.chain) || fresh(encoder.chain))
      ensures {probe, kept} == old({probe, kept})
      ensures ok ==> Cut(blockSize, |window|, final, span) && ChosenBy(window, profile.pclusterSize, final, ratio, tried, span, compLen == 0)
      ensures ok && compLen != 0 ==> Holds(window, profile.pclusterSize, final, span, compLen) && compLen == Squeezed(window[..span])
      ensures ok && compLen == 0 ==> span <= profile.pclusterSize
      ensures ok ==> newRatio == if compLen == 0 then ratio else 0.75 * ratio + 0.25 * (compLen as real) / (span as real)
      ensures ok || FailsIn(window)
    {
      hide Encodes, SoundCompressor, FailsOn, Squeezed, Guided, Exhausted, Steer, Largest;
      var pc := profile.pclusterSize;
      var lastCand;
      span, compLen, lastCand, ok, tried := Search(window, pc, final, FirstTry(window, pc, final, ratio));
      newRatio := ratio;
      if ok { FoundIs(window, pc, final, tried); }
      if ok && span == 0 {
        // Last resort: a single-cluster input span.
        span := Clamp(blockSize, pc, |window|, final, pc);
        compLen := 0;
        if span == lastCand { return; }
        var n, fit;
        n, fit, ok := Probe(window, pc, final, span);
        assert window[0..span] == window[..span];
        if !fit { return; }
        compLen := n;
      }
      if ok { newRatio := 0.75 * ratio + 0.25 * (compLen as real) / (span as real); }
    }

    /** When nothing tried saves a block, the last one tried does not. */
    lemma {:induction false} FoundIs(window: seq<byte>, pc: nat, final: bool, tried: seq<nat>)
      requires blockSize > 0 && pc > 0 && pc % blockSize == 0 && (final || |window| % blockSize == 0)
      requires Guided(window, pc, final, tried) && tried != []
      ensures Cut(blockSize, |window|, final, tried[|tried| - 1])
      ensures Largest(window, pc, tried, |tried|) == 0 ==> !Compresses(window, pc, tried[|tried| - 1])
    {
      hide Compresses, Steer;
      LargestIs(window, pc, tried, |tried|);
    }

    /** The stronger encoder's block for a span, when the encoder's chains hold chain. */
    ghost function Refined(span: seq<byte>, chain: seq<uint16>): (block: seq<byte>) {
      OptPlanOk(span, chain);
      EncodeBlock(OptPlan(span, chain).Complete(span))
    }

    /** Re-encodes a span with the stronger encoder; the probe encoding survives in the
        kept buffer.  The result is kept exactly when it occupies fewer blocks, unless the
        span compressed to more than three quarters. */
    method RefineSpan(span: seq<byte>, pc: nat, compLen: nat) returns (comp: seq<byte>)
      requires Valid() && Fits(blockSize, pc, |span|, compLen)
      requires compLen <= kept.Length && Encodes(kept[..compLen], span)
      modifies encoder, encoder.head, encoder.chain, probe
      ensures Valid() && (encoder.chain == old(encoder.chain) || fresh(encoder.chain))
      ensures Fits(blockSize, pc, |span|, |comp|) && Encodes(comp, span) && |comp| <= compLen
      ensures var block := Refined(span, old(encoder.chain[..]));
        comp == if hc && compLen * 4 <= |span| * 3 && |block| <= probe.Length && CeilDiv(|block|, blockSize) < CeilDiv(compLen, blockSize)
                then block else kept[..compLen]
    {
      hide Encodes, SoundCompressor, EncodeBlock, OptPlan, Plan.Ok, Refused, CeilDiv;
      comp := kept[..compLen];
      ghost var block := Refined(span, encoder.chain[..]);
      if !hc || compLen * 4 > |span| * 3 { return; }
      var fastBlocks := CeilDiv(compLen, blockSize);
      CeilBounds(compLen, blockSize);
      BlockNotEmpty(span, encoder.chain[..]);
      CeilPositive(|block|, blockSize);
      if fastBlocks == 1 { return; }
      CeilPositive(compLen, blockSize);
      var limit := blockSize * (fastBlocks - 1);
      assert limit == blockSize * fastBlocks - blockSize;
      CeilBelow(|block|, blockSize, fastBlocks);
      OptPlanOk(span, encoder.chain[..]);
      RefusedWithin(span, OptPlan(span, encoder.chain[..]), probe.Length, limit);
      var n, within := encoder.CompressBlockOptLimit(span, probe, limit);
      if within && 0 < n < compLen && n <= |span| - blockSize { comp := probe[..n]; }
    }

    lemma {:induction false} BlockNotEmpty(span: seq<byte>, chain: seq<uint16>)
      ensures |Refined(span, chain)| > 0
    {
      hide EncodeBlock, OptPlan, Plan.Ok;
      OptPlanOk(span, chain);
      RefusedWithin(span, OptPlan(span, chain), 0, 0);
    }

    lemma {:induction false} CeilPositive(n: nat, bs: nat)
      requires bs > 0 && n > 0
      ensures CeilDiv(n, bs) >= 1
    {
      CeilBounds(n, bs);
      if CeilDiv(n, bs) <= 0 { MulMonotone(bs, CeilDiv(n, bs), 0); }
    }

    lemma {:induction false} CeilBelow(n: nat, bs: nat, blocks: nat)
      requires bs > 0 && blocks > 0
      ensures CeilDiv(n, bs) < blocks <==> n <= bs * (blocks - 1)
    {
      CeilBounds(n, bs);
      if n <= bs * (blocks - 1) { CeilAtMost(n, bs, blocks - 1); }
      if CeilDiv(n, bs) < blocks { MulMonotone(bs, CeilDiv(n, bs), blocks - 1); }
    }

    /** What a span at pos is chosen from. */
    function Window(buf: seq<byte>, pos: nat, max: nat): (window: seq<byte>)
      requires pos <= |buf|
    {
      buf[pos..Min(|buf|, pos + max)]
    }

    /** The span at pos is the one the search chooses, raw or not, and its encoding is no
        longer than the compressor's. */
    ghost predicate ChosenAt(buf: seq<byte>, pos: nat, profile: Profile, final: bool, span: nat, comp: seq<byte>)
      requires pos <= |buf|
    {
      var window := Window(buf, pos, profile.maxExtentSize);
      span <= |window| && Chosen(window, profile.pclusterSize, final && pos + |window| == |buf|, span, comp == [])
      && |comp| <= Squeezed(window[..span])
    }

    /** Every span is chosen so from what the spans before it leave. */
    ghost predicate AllChosen(buf: seq<byte>, profile: Profile, final: bool, spans: seq<PackedSpan>) {
      forall k :: 0 <= k < |spans| ==> SpanChosen(buf, profile, final, spans, k)
    }

    ghost predicate SpanChosen(buf: seq<byte>, profile: Profile, final: bool, spans: seq<PackedSpan>, k: nat)
      requires k < |spans|
    {
      |Raws(spans[..k])| <= |buf| && ChosenAt(buf, |Raws(spans[..k])|, profile, final, |spans[k].raw|, spans[k].comp)
    }

    lemma {:induction false} ChosenNext(buf: seq<byte>, profile: Profile, final: bool, spans: seq<PackedSpan>, s: PackedSpan)
      requires AllChosen(buf, profile, final, spans) && |Raws(spans)| <= |buf|
      requires ChosenAt(buf, |Raws(spans)|, profile, final, |s.raw|, s.comp)
      ensures AllChosen(buf, profile, final, spans + [s])
    {
      hide ChosenAt, Raws;
      var more := spans + [s];
      forall k | 0 <= k < |more| ensures SpanChosen(buf, profile, final, more, k) {
        assert more[..k] == spans[..k];
        if k < |spans| { assert SpanChosen(buf, profile, final, spans, k); } else { assert spans[..k] == spans; }
      }
    }

    lemma {:induction false} ChosenMarked(buf: seq<byte>, profile: Profile, final: bool, spans: seq<PackedSpan>)
      requires AllChosen(buf, profile, final, spans) && spans != []
      ensures var last := |spans| - 1; AllChosen(buf, profile, final, spans[last := spans[last].(segmentEnd := true)])
    {
      hide ChosenAt, Raws;
      var last := |spans| - 1;
      var marked := spans[last := spans[last].(segmentEnd := true)];
      forall k | 0 <= k < |marked| ensures SpanChosen(buf, profile, final, marked, k) {
        assert SpanChosen(buf, profile, final, spans, k);
        assert marked[..k] == spans[..k];
      }
    }

    /** Packs the span at pos: chooses it, refines it, and copies its encoding out. */
    method PackNext(buf: seq<byte>, pos: nat, profile: Profile, final: bool, ratio: real)
      returns (span: nat, comp: seq<byte>, newRatio: real, ok: bool)
      requires Valid() && Serves(profile) && pos < |buf| && pos % blockSize == 0
      requires final || |buf| % blockSize == 0
      modifies this, encoder, encoder.head, encoder.chain, probe, kept
      ensures Valid() && (encoder.chain == old(encoder.chain) || fresh(encoder.chain))
      ensures {probe, kept} == old({probe, kept})
      ensures ok ==> Cut(blockSize, |buf| - pos, final, span)
      ensures ok ==> SpanOk(blockSize, profile, PackedSpan(buf[pos..pos + span], comp, false))
      ensures ok ==> ChosenAt(buf, pos, profile, final, span, comp)
      ensures ok || FailsIn(buf)
    {
      hide Encodes, SoundCompressor, FailsIn, ChosenBy, Squeezed, Refined;
      var window := Window(buf, pos, profile.maxExtentSize);
      SumMod(pos, |buf| - pos, blockSize);
      var compLen;
      ghost var tried;
      span, compLen, newRatio, ok, tried := PackSpan(window, profile, final && pos + |window| == |buf|, ratio);
      comp := [];
      if !ok {
        FailsInside(buf, pos, pos + |window|);
        return;
      }
      assert window[..span] == buf[pos..pos + span];
      if compLen != 0 { comp := RefineSpan(window[..span], profile.pclusterSize, compLen); }
    }

    /** Packs one whole segment; only the last span of a final stream may be
        unaligned.  A failing compressor stops the segment. */
    method PackSegment(buf: seq<byte>, profile: Profile, final: bool) returns (spans: seq<PackedSpan>, ok: bool)
      requires Valid() && Serves(profile) && (final || |buf| % blockSize == 0)
      modifies this, encoder, encoder.head, encoder.chain, probe, kept
      ensures Valid() && (encoder.chain == old(encoder.chain) || fresh(encoder.chain))
      ensures {probe, kept} == old({probe, kept})
      ensures ok ==> Partitions(blockSize, profile, final, spans, buf) && AllChosen(buf, profile, final, spans)
      ensures ok || FailsIn(buf)
    {
      hide Encodes, SoundCompressor, FailsIn, ChosenAt;
      spans, ok := [], true;
      var pos, ratio := 0, 0.5;
      while pos < |buf|
        invariant 0 <= pos <= |buf| && Valid() && (encoder.chain == old(encoder.chain) || fresh(encoder.chain))
        invariant {probe, kept} == old({probe, kept})
        invariant Raws(spans) == buf[..pos] && AllSpansOk(blockSize, profile, spans) && AllChosen(buf, profile, final, spans)
        invariant pos % blockSize == 0 || (final && pos == |buf|)
        invariant forall k :: 0 <= k < |spans| ==> |spans[k].raw| % blockSize == 0 || (final && k == |spans| - 1 && pos == |buf|)
        decreases |buf| - pos
      {
        var span, comp;
        span, comp, ratio, ok := PackNext(buf, pos, profile, final, ratio);
        if !ok { return; }
        var packed := PackedSpan(buf[pos..pos + span], comp, false);
        SumMod(pos, span, blockSize);
        assert buf[..pos] + packed.raw == buf[..pos + span];
        RawsSnoc(spans, packed);
        ChosenNext(buf, profile, final, spans, packed);
        spans := spans + [packed];
        pos := pos + span;
      }
      if !final && |spans| > 0 {
        MarkEnd(blockSize, profile, spans);
        ChosenMarked(buf, profile, final, spans);
        spans := spans[|spans| - 1 := spans[|spans| - 1].(segmentEnd := true)];
      }
    }
  }
}
