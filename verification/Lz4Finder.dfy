/**
 The hash chains over 4-byte prefixes, and the match finders that walk them, as
 functions of the source and the chains.  The chains are only a source of
 candidates: what a finder returns is established by comparing bytes, so stale or
 wrapped links cost ratio and never correctness.
 */
module Lz4Finder {
  import opened Bytes
  import opened Lz4Format
  import opened Lz4Emit

  const HASH_SIZE := 65536
  const ATTEMPTS := 64
  const GOOD_ENOUGH := 768
  const MAX_BACK := 64

  type uint16 = n: int | 0 <= n < 65536

  function Load32(src: seq<byte>, i: nat): (u: nat)
    requires i + 4 <= |src|
    ensures u < 0x1_0000_0000
  {
    src[i] + 256 * (src[i + 1] as int) + 65536 * (src[i + 2] as int) + 16777216 * (src[i + 3] as int)
  }

  function Hash(u: nat): (h: nat)
    ensures h < HASH_SIZE
  {
    (u * 2654435761) % 0x1_0000_0000 / 65536
  }

  // ---- the chains --------------------------------------------------------------

  /** head: hash of a 4-byte prefix -> latest position + 1;
      chain: position -> backward delta to the previous one with its hash, 0 to end. */
  datatype Links = Links(head: seq<nat>, chain: seq<uint16>) {
    /** Sized for src, and every entry point is a position of src. */
    ghost predicate For(src: seq<byte>) {
      |head| == HASH_SIZE && |src| <= |chain| && forall h :: 0 <= h < HASH_SIZE ==> head[h] <= |src|
    }
  }

  /** Position i linked into its chain; re-inserting the newest one changes nothing.
      A position older than the newest gets a delta that wraps. */
  function Inserted(src: seq<byte>, i: nat, k: Links): (r: Links)
    requires k.For(src) && i + 4 <= |src|
    ensures r.For(src) && |r.chain| == |k.chain|
  {
    var h := Hash(Load32(src, i));
    var prev := (k.head[h] as int) - 1;
    if prev == i then k
    else Links(k.head[h := i + 1],
               k.chain[i := if prev >= 0 && i - prev <= MAX_DISTANCE then (i - prev) % 65536 else 0])
  }

  /** The positions from..to linked in, in order. */
  function InsertedAll(src: seq<byte>, from: nat, to: nat, k: Links): (r: Links)
    requires k.For(src) && to + MF_LIMIT <= |src|
    ensures r.For(src) && |r.chain| == |k.chain|
    decreases if from < to then to - from else 0
  {
    if from >= to then k else InsertedAll(src, from + 1, to, Inserted(src, from, k))
  }

  /** The first position before i on the chain from cand, or a negative number. */
  function NewestBefore(chain: seq<uint16>, cand: int, i: nat): (r: int)
    requires cand < |chain|
    ensures r < i
    decreases cand
  {
    if cand < i then cand else if chain[cand] == 0 then -1 else NewestBefore(chain, cand - chain[cand], i)
  }

  /** Where the search around i begins. */
  function FirstCandidate(src: seq<byte>, k: Links, i: nat): (r: int)
    requires k.For(src) && i + 4 <= |src|
    ensures r < i
  {
    NewestBefore(k.chain, (k.head[Hash(Load32(src, i))] as int) - 1, i)
  }

  // ---- comparing bytes ----------------------------------------------------------

  /** n is how far src agrees at a and at b, up to maxLen. */
  ghost predicate IsRun(src: seq<byte>, a: nat, b: nat, maxLen: nat, n: nat)
    requires a <= b && b + maxLen <= |src|
  {
    n <= maxLen && Repeats(src, b, b - a, n) && (n < maxLen ==> src[a + n] != src[b + n])
  }

  function CommonRun(src: seq<byte>, a: nat, b: nat, maxLen: nat): (n: nat)
    requires a <= b && b + maxLen <= |src|
    ensures IsRun(src, a, b, maxLen, n)
    decreases maxLen
  {
    if maxLen == 0 then 0
    else
      var n := CommonRun(src, a, b, maxLen - 1);
      if n == maxLen - 1 && src[a + n] == src[b + n] then maxLen else n
  }

  lemma {:induction false} RunUnique(src: seq<byte>, a: nat, b: nat, maxLen: nat, n: nat)
    requires a <= b && b + maxLen <= |src| && IsRun(src, a, b, maxLen, n)
    ensures n == CommonRun(src, a, b, maxLen)
  {
  }

  /** back is how far src agrees before cand and before i, up to max. */
  ghost predicate IsBackRun(src: seq<byte>, cand: nat, i: nat, max: nat, back: nat)
    requires cand <= i <= |src| && max <= cand
  {
    back <= max && Repeats(src, i - back, i - cand, back)
    && (back < max ==> src[i - back - 1] != src[cand - back - 1])
  }

  function BackRun(src: seq<byte>, cand: nat, i: nat, max: nat): (back: nat)
    requires cand <= i <= |src| && max <= cand
    ensures IsBackRun(src, cand, i, max, back)
    decreases max
  {
    if max == 0 then 0
    else
      var back := BackRun(src, cand, i, max - 1);
      if back == max - 1 && src[i - max] == src[cand - max] then max else back
  }

  lemma {:induction false} BackRunUnique(src: seq<byte>, cand: nat, i: nat, max: nat, back: nat)
    requires cand <= i <= |src| && max <= cand && IsBackRun(src, cand, i, max, back)
    ensures back == BackRun(src, cand, i, max)
  {
  }

  // ---- the finders --------------------------------------------------------------

  const NO_MATCH := Match(0, 0, 0)

  /** The match, if any, covers i and at least three bytes beyond, from minStart on. */
  ghost predicate Around(src: seq<byte>, i: nat, minStart: nat, m: Match) {
    m.len != 0 ==> MatchAt(src, m.start, m.ref, m.len) && minStart <= m.start <= i && i + MIN_MATCH <= m.start + m.len
  }

  /** Whether a candidate could beat a match of length len, judged by single bytes. */
  predicate Viable(src: seq<byte>, i: nat, cand: nat, len: nat)
    requires cand < i && i + LAST_LITERALS <= |src|
  {
    len == 0 || (cand != 0 && src[cand - 1] == src[i - 1])
    || (i + len < |src| - LAST_LITERALS && src[cand + len] == src[i + len])
  }

  /** The candidate extended both ways, when that is wider than m. */
  function Tried(src: seq<byte>, i: nat, minStart: nat, cand: nat, m: Match): (r: Match)
    requires cand < i && minStart <= i && i + MF_LIMIT < |src|
  {
    if !Viable(src, i, cand, m.len) || Load32(src, cand) != Load32(src, i) then m
    else
      var fwd := CommonRun(src, cand, i, |src| - LAST_LITERALS - i);
      var maxBack := Min(i - minStart, MAX_BACK);
      var candidateBack := Min(maxBack, cand);
      var needBack := m.len - fwd + 1;
      if fwd < MIN_MATCH || fwd + maxBack <= m.len || needBack > candidateBack then m
      else if needBack > 0 && src[i - needBack] != src[cand - needBack] then m
      else
        var back := BackRun(src, cand, i, candidateBack);
        if fwd + back > m.len then Match(i - back, cand - back, fwd + back) else m
  }

  lemma {:induction false} TriedAround(src: seq<byte>, i: nat, minStart: nat, cand: nat, m: Match)
    requires cand < i <= cand + MAX_DISTANCE && minStart <= i && i + MF_LIMIT < |src| && Around(src, i, minStart, m)
    ensures Around(src, i, minStart, Tried(src, i, minStart, cand, m))
  {
  }

  /** The walk along the chain from cand, with m the widest match so far. */
  function WidenFrom(src: seq<byte>, chain: seq<uint16>, i: nat, minStart: nat, cand: int, attempts: nat, m: Match): (r: Match)
    requires cand < i && minStart <= i && i + MF_LIMIT < |src| <= |chain| && Around(src, i, minStart, m)
    ensures Around(src, i, minStart, r)
    decreases attempts
  {
    if attempts == 0 || cand < 0 || cand < i - MAX_DISTANCE then m
    else
      TriedAround(src, i, minStart, cand, m);
      var t := Tried(src, i, minStart, cand, m);
      if (t.len > m.len && t.len >= GOOD_ENOUGH) || chain[cand] == 0 then t
      else WidenFrom(src, chain, i, minStart, cand - chain[cand], attempts - 1, t)
  }

  /** The widest match around i found on its chain: it starts at or after minStart,
      covers i and at least three bytes beyond, and refers to earlier data in reach. */
  function Wider(src: seq<byte>, k: Links, i: nat, minStart: nat): (r: Match)
    requires k.For(src) && minStart <= i && i + MF_LIMIT < |src|
    ensures Around(src, i, minStart, r)
  {
    var m := WidenFrom(src, k.chain, i, minStart, FirstCandidate(src, k, i), ATTEMPTS, NO_MATCH);
    if m.len < MIN_MATCH then NO_MATCH else m
  }

  /** The candidate when it matches further than m from i on. */
  function TriedAt(src: seq<byte>, i: nat, cand: nat, m: Match): (r: Match)
    requires cand < i && i + MF_LIMIT < |src| && i + m.len + LAST_LITERALS <= |src|
    ensures i + r.len + LAST_LITERALS <= |src|
  {
    if Load32(src, cand) != Load32(src, i) || (m.len != 0 && src[cand + m.len] != src[i + m.len]) then m
    else
      var l := CommonRun(src, cand, i, |src| - LAST_LITERALS - i);
      if l > m.len then Match(i, cand, l) else m
  }

  /** A match from i on, of any length. */
  ghost predicate RunAt(src: seq<byte>, i: nat, m: Match) {
    i + m.len + LAST_LITERALS <= |src|
    && (m.len != 0 ==> m.start == i && m.ref < i <= m.ref + MAX_DISTANCE && Repeats(src, i, i - m.ref, m.len))
  }

  lemma {:induction false} NoRun(src: seq<byte>, i: nat)
    requires i + LAST_LITERALS <= |src|
    ensures RunAt(src, i, NO_MATCH)
  {
  }

  lemma {:induction false} TriedRun(src: seq<byte>, i: nat, cand: nat, m: Match)
    requires cand < i <= cand + MAX_DISTANCE && i + MF_LIMIT < |src| && RunAt(src, i, m)
    ensures i + m.len + LAST_LITERALS <= |src| && RunAt(src, i, TriedAt(src, i, cand, m))
    ensures i + TriedAt(src, i, cand, m).len + LAST_LITERALS <= |src|
  {
  }

  function LengthenFrom(src: seq<byte>, chain: seq<uint16>, i: nat, cand: int, attempts: nat, m: Match): (r: Match)
    requires cand < i && i + MF_LIMIT < |src| <= |chain| && RunAt(src, i, m)
    ensures RunAt(src, i, r)
    decreases attempts
  {
    if attempts == 0 || cand < 0 || cand < i - MAX_DISTANCE then m
    else
      var t := TriedAt(src, i, cand, m);
      if (t.len > m.len && i + t.len + LAST_LITERALS == |src|) || chain[cand] == 0 then t
      else LengthenFrom(src, chain, i, cand - chain[cand], attempts - 1, t)
  }

  /** The longest match starting exactly at i found on its chain. */
  function Longest(src: seq<byte>, k: Links, i: nat): (r: Match)
    requires k.For(src) && i + MF_LIMIT < |src|
    ensures r.len != 0 ==> r.start == i && MatchAt(src, i, r.ref, r.len)
  {
    var m := LengthenFrom(src, k.chain, i, FirstCandidate(src, k, i), ATTEMPTS, NO_MATCH);
    if m.len < MIN_MATCH then NO_MATCH else m
  }

  /** The front of a match is a match. */
  lemma {:induction false} MatchShorter(src: seq<byte>, start: int, ref: int, len: int, shorter: int)
    requires MatchAt(src, start, ref, len) && MIN_MATCH <= shorter <= len
    ensures MatchAt(src, start, ref, shorter)
  {
  }
}
