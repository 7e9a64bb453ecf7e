/**
 Writing an LZ4 block into a caller's buffer: the emitters, and the invariant
 that ties the bytes written so far to the part of the source they cover.
 */
module Lz4Emit {
  import opened Bytes
  import opened Lz4Format

  // ---- what has been committed so far --------------------------------------

  ghost predicate AllEncodable(sequences: seq<Sequence>) {
    forall s <- sequences :: s.Encodable()
  }

  /** src[start..start+len] repeats the bytes at ref, within the format's reach
      and clear of the closing literals. */
  ghost predicate MatchAt(src: seq<byte>, start: int, ref: int, len: int) {
    0 <= ref < start <= ref + MAX_DISTANCE
    && MIN_MATCH <= len && start + len + LAST_LITERALS <= |src|
    && Repeats(src, start, start - ref, len)
  }

  ghost predicate Repeats(src: seq<byte>, start: int, offset: int, len: int)
    requires 0 <= offset <= start && start + len <= |src|
  {
    forall p :: start <= p < start + len ==> src[p - offset] == src[p]
  }

  /** The sequences chosen so far, which cover the source up to anchor. */
  datatype Plan = Plan(sequences: seq<Sequence>, anchor: nat) {
    /** They replay to src[..anchor] and leave room for the end-of-block conditions. */
    ghost predicate Ok(src: seq<byte>) {
      AllEncodable(sequences) && anchor <= |src| && Replay([], sequences) == Some(src[..anchor])
      && (sequences != [] ==>
            anchor + LAST_LITERALS <= |src|
            && anchor + MF_LIMIT <= |src| + sequences[|sequences| - 1].matchLen)
    }

    /** The block these sequences make, the rest of src being literals. */
    function Complete(src: seq<byte>): (b: Block)
      requires anchor <= |src|
    {
      Block(sequences, src[anchor..])
    }
  }

  const START := Plan([], 0)

  /** A back-reference from start to ref; a length of 0 stands for no match. */
  datatype Match = Match(start: nat, ref: nat, len: nat)

  lemma {:induction false} CopyBackMatches(src: seq<byte>, p: nat, offset: nat, n: nat)
    requires 1 <= offset <= p && p + n <= |src|
    requires Repeats(src, p, offset, n)
    ensures CopyBack(src[..p], offset, n) == src[..p + n]
    decreases n
  {
    if n > 0 {
      assert src[..p] + [src[..p][p - offset]] == src[..p + 1];
      CopyBackMatches(src, p + 1, offset, n - 1);
    }
  }

  function SequenceFor(src: seq<byte>, anchor: nat, start: nat, offset: nat, len: nat): (s: Sequence)
    requires anchor <= start <= |src|
  {
    Sequence(src[anchor..start], offset, len)
  }

  /** The parse continued by literals up to the match, and the match. */
  function Taken(src: seq<byte>, p: Plan, m: Match): (r: Plan)
    requires p.anchor <= m.start <= |src| && m.ref <= m.start
  {
    Plan(p.sequences + [SequenceFor(src, p.anchor, m.start, m.start - m.ref, m.len)], m.start + m.len)
  }

  lemma {:induction false} ReplayMatch(src: seq<byte>, anchor: nat, m: Match)
    requires anchor <= m.start && MatchAt(src, m.start, m.ref, m.len)
    ensures Replay(src[..anchor], [SequenceFor(src, anchor, m.start, m.start - m.ref, m.len)])
         == Some(src[..m.start + m.len])
  {
    assert src[..anchor] + src[anchor..m.start] == src[..m.start];
    CopyBackMatches(src, m.start, m.start - m.ref, m.len);
  }

  /** Committing one verified match extends the covered prefix to the match's end. */
  lemma {:induction false} CommitMatch(src: seq<byte>, p: Plan, m: Match)
    requires p.Ok(src) && p.anchor <= m.start
    requires MatchAt(src, m.start, m.ref, m.len) && m.start + MF_LIMIT <= |src|
    ensures var s := SequenceFor(src, p.anchor, m.start, m.start - m.ref, m.len);
      s.Encodable() && Taken(src, p, m).Ok(src)
      && EncodeSequences(Taken(src, p, m).sequences) == EncodeSequences(p.sequences) + EncodeSequence(s)
  {
    hide Replay, EncodeSequence, Repeats;
    var s := SequenceFor(src, p.anchor, m.start, m.start - m.ref, m.len);
    ReplayMatch(src, p.anchor, m);
    ReplayAppend([], p.sequences, [s]);
    EncodeSequencesAppend(p.sequences, [s]);
    assert EncodeSequences([s]) == EncodeSequence(s);
  }

  lemma {:induction false} TailCompletes(src: seq<byte>, p: Plan)
    requires p.Ok(src)
    ensures Encodes(EncodeBlock(p.Complete(src)), src)
  {
    ParseRoundTrip(p.Complete(src));
    assert src[..p.anchor] + src[p.anchor..] == src;
  }

  lemma {:induction false} BlockAtLeast(front: seq<Sequence>, block: Block)
    requires AllEncodable(block.sequences) && front <= block.sequences
    ensures AllEncodable(front) && |EncodeSequences(front)| <= |EncodeSequences(block.sequences)|
    ensures |EncodeSequences(front)| + 1 + |block.tail| <= |EncodeBlock(block)|
  {
    var rest := block.sequences[|front|..];
    assert block.sequences == front + rest;
    EncodeSequencesAppend(front, rest);
  }

  /** Whether a plan is given up: its block exceeds the buffer, or its sequences alone
      exceed the limit. */
  ghost predicate Refused(src: seq<byte>, plan: Plan, capacity: int, limit: int)
    requires plan.Ok(src)
  {
    capacity < |EncodeBlock(plan.Complete(src))| || (plan.sequences != [] && limit < |EncodeSequences(plan.sequences)|)
  }

  /** Giving up on the front of a plan is giving up on the plan: the room that was
      missing is less than the shortest tail takes. */
  lemma {:induction false} RefusedBy(src: seq<byte>, front: Plan, plan: Plan, capacity: int, limit: int)
    requires plan.Ok(src) && front.sequences <= plan.sequences && front.sequences != [] && AllEncodable(front.sequences)
    requires capacity < |EncodeSequences(front.sequences)| + 2 || limit < |EncodeSequences(front.sequences)|
    ensures Refused(src, plan, capacity, limit)
  {
    hide EncodeSequences, EncodeBlock;
    BlockAtLeast(front.sequences, plan.Complete(src));
  }

  /** With no limit below the buffer's size, only the buffer can be too small. */
  lemma {:induction false} RefusedWhole(src: seq<byte>, plan: Plan, capacity: int)
    requires plan.Ok(src)
    ensures Refused(src, plan, capacity, capacity) <==> capacity < |EncodeBlock(plan.Complete(src))|
  {
    hide EncodeSequences;
    BlockAtLeast(plan.sequences, plan.Complete(src));
  }

  /** What meets both bounds is not refused. */
  lemma {:induction false} RefusedWithin(src: seq<byte>, plan: Plan, capacity: int, limit: int)
    requires plan.Ok(src)
    ensures |EncodeBlock(plan.Complete(src))| > 0
    ensures |EncodeBlock(plan.Complete(src))| <= Min(capacity, limit) ==> !Refused(src, plan, capacity, limit)
  {
    hide EncodeSequences;
    BlockAtLeast(plan.sequences, plan.Complete(src));
  }

  // ---- a buffer that always suffices ----------------------------------------

  /** Bytes that hold the encoding of any n-byte block (lz4's CompressBlockBound). */
  function CompressBlockBound(n: nat): (r: nat) { n + n / 255 + 16 }

  /** A sequence never takes more bytes than it covers, but for a 255th of its literals. */
  lemma {:induction false} SequenceBound(s: Sequence)
    requires s.Encodable()
    ensures |EncodeSequence(s)| <= |s.literals| + s.matchLen + |s.literals| / 255
  {
    EncodeSequenceSize(s);
  }

  lemma {:induction false} SequencesBound(out: seq<byte>, parse: seq<Sequence>)
    requires AllEncodable(parse) && Replay(out, parse).Some?
    ensures |Replay(out, parse).value| >= |out|
    ensures var n := |Replay(out, parse).value| - |out|; |EncodeSequences(parse)| <= n + n / 255
    decreases |parse|
  {
    if parse != [] {
      SequenceBound(parse[0]);
      SequencesBound(CopyBack(out + parse[0].literals, parse[0].offset, parse[0].matchLen), parse[1..]);
    }
  }

  /** No parse needs more than the bound, so a buffer of that size is never refused. */
  lemma {:induction false} PlanBound(src: seq<byte>, plan: Plan)
    requires plan.Ok(src)
    ensures |EncodeBlock(plan.Complete(src))| <= CompressBlockBound(|src|)
  {
    SequencesBound([], plan.sequences);
    EncodeTailSize(src[plan.anchor..]);
  }

  // ---- the emitters --------------------------------------------------------

  method CopyInto(dst: array<byte>, d: nat, bytes: seq<byte>) returns (r: nat)
    requires d + |bytes| <= dst.Length
    modifies dst
    ensures r == d + |bytes|
    ensures dst[..r] == old(dst[..d]) + bytes
  {
    forall k | 0 <= k < |bytes| { dst[d + k] := bytes[k]; }
    r := d + |bytes|;
  }

  /** Writes an extended length: 255s followed by the remainder. */
  method PutLenExt(dst: array<byte>, d: nat, v: nat) returns (r: nat)
    requires d + v / 255 + 1 <= dst.Length
    modifies dst
    ensures r == d + v / 255 + 1
    ensures dst[..r] == old(dst[..d]) + Extension(v)
  {
    var left := v;
    r := d;
    while left >= 255
      invariant 0 <= left <= v && d <= r
      invariant r + left / 255 == d + v / 255
      invariant dst[..r] + Extension(left) == old(dst[..d]) + Extension(v)
    {
      dst[r] := 255;
      r := r + 1;
      left := left - 255;
    }
    dst[r] := left;
    r := r + 1;
  }

  method PutLength(dst: array<byte>, d: nat, v: nat) returns (r: nat)
    requires d + LengthCost(v) <= dst.Length
    modifies dst
    ensures r == d + LengthCost(v)
    ensures dst[..r] == old(dst[..d]) + LengthBytes(v)
  {
    r := d;
    if v >= 15 { r := PutLenExt(dst, d, v - 15); }
  }

  /** Writes the closing literals-only sequence, or nothing when it does not fit. */
  method EmitTail(src: seq<byte>, dst: array<byte>, d: nat, anchor: nat) returns (n: nat)
    requires anchor <= |src| && d <= dst.Length
    modifies dst
    ensures n == 0 <==> dst.Length < d + |EncodeTail(src[anchor..])|
    ensures n != 0 ==> n <= dst.Length && dst[..n] == old(dst[..d]) + EncodeTail(src[anchor..])
    ensures n == 0 ==> dst[..] == old(dst[..])
  {
    hide EncodeTail, LengthBytes;
    var lit := |src| - anchor;
    var need := 1 + lit + (lit + 240) / 255;
    EncodeTailSize(src[anchor..]);
    EncodeTailParts(dst[..d], src[anchor..]);
    if d + need > dst.Length { return 0; }
    n := CopyInto(dst, d, [Nibble(lit) * 16]);
    n := PutLength(dst, n, lit);
    n := CopyInto(dst, n, src[anchor..]);
  }

  /** The token, then the literals. */
  lemma {:induction false} EncodeTailParts(before: seq<byte>, tail: seq<byte>)
    ensures before + [Nibble(|tail|) * 16] + LengthBytes(|tail|) + tail == before + EncodeTail(tail)
  {
  }

  /** The token and literals, then the back-reference. */
  lemma {:induction false} EncodeSequenceParts(before: seq<byte>, s: Sequence)
    requires s.Encodable()
    ensures var m := s.matchLen - MIN_MATCH;
      before + [Nibble(|s.literals|) * 16 + Nibble(m)] + LengthBytes(|s.literals|) + s.literals
      + [s.offset % 256, s.offset / 256] + LengthBytes(m) == before + EncodeSequence(s)
  {
  }

  method EmitParts(dst: array<byte>, d: nat, s: Sequence) returns (r: nat)
    requires s.Encodable() && d + |EncodeSequence(s)| <= dst.Length
    modifies dst
    ensures r <= dst.Length && dst[..r] == old(dst[..d]) + EncodeSequence(s)
  {
    hide Extension, EncodeSequence, LengthBytes;
    EncodeSequenceSize(s);
    EncodeSequenceParts(dst[..d], s);
    var m := s.matchLen - MIN_MATCH;
    r := CopyInto(dst, d, [Nibble(|s.literals|) * 16 + Nibble(m)]);
    r := PutLength(dst, r, |s.literals|);
    r := CopyInto(dst, r, s.literals);
    r := CopyInto(dst, r, [s.offset % 256, s.offset / 256]);
    r := PutLength(dst, r, m);
  }

  /** Writes one literals-and-match sequence; ok is false when dst may be too small,
      which over-estimates the need by at most two bytes. */
  method EmitSequence(dst: array<byte>, d: nat, s: Sequence) returns (r: nat, ok: bool)
    requires s.Encodable() && d <= dst.Length
    modifies dst
    ensures ok ==> r <= dst.Length && dst[..r] == old(dst[..d]) + EncodeSequence(s)
    ensures !ok ==> dst[..] == old(dst[..]) && dst.Length < d + |EncodeSequence(s)| + 2
  {
    var lit := |s.literals|;
    var need := 1 + lit + (lit + 240) / 255 + 2 + (s.matchLen + 240) / 255 + 1;
    EncodeSequenceSize(s);
    if d + need > dst.Length { return 0, false; }
    r := EmitParts(dst, d, s);
    ok := true;
  }

  // ---- committing whole matches ---------------------------------------------

  /** dst[..d] holds exactly the encoding of p. */
  ghost predicate Written(src: seq<byte>, dst: array<byte>, d: nat, p: Plan)
    reads dst
  {
    p.Ok(src) && d <= dst.Length && dst[..d] == EncodeSequences(p.sequences)
  }

  lemma {:induction false} StartParse(src: seq<byte>, none: seq<byte>)
    requires none == []
    ensures START.Ok(src) && EncodeSequences(START.sequences) == none
  {
    assert src[..0] == [];
  }

  /** Commits a match; refused only when dst has no room for it and the two bytes the
      room check is too strict by. */
  method Commit(src: seq<byte>, dst: array<byte>, d: nat, ghost p: Plan, anchor: nat, m: Match) returns (r: nat, ok: bool)
    requires Written(src, dst, d, p) && anchor == p.anchor <= m.start
    requires m.start + MF_LIMIT <= |src| && MatchAt(src, m.start, m.ref, m.len)
    modifies dst
    ensures Taken(src, p, m).Ok(src)
    ensures ok ==> Written(src, dst, r, Taken(src, p, m))
    ensures !ok ==> dst.Length < |EncodeSequences(Taken(src, p, m).sequences)| + 2
  {
    var s := SequenceFor(src, anchor, m.start, m.start - m.ref, m.len);
    CommitMatch(src, p, m);
    r, ok := EmitSequence(dst, d, s);
  }

  /** Commits a match under an output target: ok fails as soon as the committed
      bytes exceed limit, since output only grows. */
  method CommitWithin(src: seq<byte>, dst: array<byte>, limit: int, d: nat, ghost p: Plan, anchor: nat, m: Match)
    returns (r: nat, ok: bool)
    requires Written(src, dst, d, p) && anchor == p.anchor <= m.start
    requires m.start + MF_LIMIT <= |src| && MatchAt(src, m.start, m.ref, m.len)
    modifies dst
    ensures Taken(src, p, m).Ok(src)
    ensures ok ==> Written(src, dst, r, Taken(src, p, m)) && r <= limit
    ensures !ok ==> var size := |EncodeSequences(Taken(src, p, m).sequences)|; dst.Length < size + 2 || limit < size
  {
    r, ok := Commit(src, dst, d, p, anchor, m);
    if ok && r > limit { ok := false; }
  }

  /** Closes the block. */
  method Finish(src: seq<byte>, dst: array<byte>, d: nat, ghost p: Plan, anchor: nat) returns (n: nat)
    requires Written(src, dst, d, p) && anchor == p.anchor
    modifies dst
    ensures n == if dst.Length < |EncodeBlock(p.Complete(src))| then 0 else |EncodeBlock(p.Complete(src))|
    ensures n != 0 ==> dst[..n] == EncodeBlock(p.Complete(src))
  {
    n := EmitTail(src, dst, d, anchor);
  }
}
