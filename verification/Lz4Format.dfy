/**
 The LZ4 block format, as the LZ4 Block Format Description states it.  A block
 is parsed into sequences (literals, then a back-reference) closed by a tail of
 literals; replaying the parse yields the decoded bytes.
 */
module Lz4Format {
  import opened Bytes

  const MIN_MATCH := 4
  const LAST_LITERALS := 5
  const MF_LIMIT := 12
  const MAX_DISTANCE := 65535

  datatype Sequence = Sequence(literals: seq<byte>, offset: nat, matchLen: nat)
  {
    predicate Encodable() { 1 <= offset <= MAX_DISTANCE && matchLen >= MIN_MATCH }
  }

  datatype Block = Block(sequences: seq<Sequence>, tail: seq<byte>)

  function Le16(lo: nat, hi: nat): (r: nat) { lo + 256 * hi }

  // ---- decoding -----------------------------------------------------------

  datatype LengthField = LengthField(value: nat, rest: seq<byte>)

  /** The bytes that extend a saturated length nibble: 255s, then a smaller byte. */
  function ReadExtension(b: seq<byte>): (r: Option<LengthField>)
    ensures r.Some? ==> |r.value.rest| < |b|
  {
    if b == [] then None
    else if b[0] < 255 then Some(LengthField(b[0], b[1..]))
    else
      match ReadExtension(b[1..])
      case None => None
      case Some(f) => Some(LengthField(255 + f.value, f.rest))
  }

  function ReadLength(nibble: nat, b: seq<byte>): (r: Option<LengthField>)
    ensures r.Some? ==> |r.value.rest| <= |b|
  {
    if nibble < 15 then Some(LengthField(nibble, b))
    else
      match ReadExtension(b)
      case None => None
      case Some(f) => Some(LengthField(15 + f.value, f.rest))
  }

  function Parse(b: seq<byte>): (r: Option<Block>)
    decreases |b|
  {
    if b == [] then None
    else
      match ReadLength(b[0] / 16, b[1..])
      case None => None
      case Some(lit) =>
        if |lit.rest| < lit.value then None
        else if |lit.rest| == lit.value then Some(Block([], lit.rest))
        else ParseMatch(b[0] % 16, lit.rest[..lit.value], lit.rest[lit.value..])
  }

  /** The back-reference of a sequence whose literals have been read. */
  function ParseMatch(nibble: nat, literals: seq<byte>, b: seq<byte>): (r: Option<Block>)
    decreases |b|, 1
  {
    if |b| < 2 then None
    else
      match ReadLength(nibble, b[2..])
      case None => None
      case Some(m) =>
        match Parse(m.rest)
        case None => None
        case Some(block) =>
          var s := Sequence(literals, Le16(b[0], b[1]), m.value + MIN_MATCH);
          Some(Block([s] + block.sequences, block.tail))
  }

  /** Appends n bytes, each copied from offset bytes back; the ranges may overlap. */
  function CopyBack(out: seq<byte>, offset: nat, n: nat): (r: seq<byte>)
    requires 1 <= offset <= |out|
    ensures |r| == |out| + n
    decreases n
  {
    if n == 0 then out else CopyBack(out + [out[|out| - offset]], offset, n - 1)
  }

  function Replay(out: seq<byte>, sequences: seq<Sequence>): (r: Option<seq<byte>>)
    decreases |sequences|
  {
    if sequences == [] then Some(out)
    else
      var s := sequences[0];
      var withLiterals := out + s.literals;
      if 1 <= s.offset <= |withLiterals|
      then Replay(CopyBack(withLiterals, s.offset, s.matchLen), sequences[1..])
      else None
  }

  function Decode(b: seq<byte>): (r: Option<seq<byte>>)
  {
    match Parse(b)
    case None => None
    case Some(block) =>
      match Replay([], block.sequences)
      case None => None
      case Some(out) => Some(out + block.tail)
  }

  /** The end-of-block conditions: a block with a match ends in at least five
      literals, and its last match starts at least twelve bytes before the end. */
  ghost predicate EndConditions(block: Block) {
    block.sequences == [] ||
    (LAST_LITERALS <= |block.tail| &&
     MF_LIMIT <= |block.tail| + block.sequences[|block.sequences| - 1].matchLen)
  }

  /** b is a block a conforming decoder turns into src. */
  ghost predicate Encodes(b: seq<byte>, src: seq<byte>) {
    Decode(b) == Some(src) && EndConditions(Parse(b).value)
    && forall s <- Parse(b).value.sequences :: s.Encodable()
  }

  // ---- encoding -----------------------------------------------------------

  function Nibble(v: nat): (r: nat) { if v >= 15 then 15 else v }

  function Extension(v: nat): (r: seq<byte>) {
    if v >= 255 then [255] + Extension(v - 255) else [v]
  }

  function LengthBytes(v: nat): (r: seq<byte>) {
    if v >= 15 then Extension(v - 15) else []
  }

  function EncodeSequence(s: Sequence): (r: seq<byte>)
    requires s.Encodable()
  {
    var m := s.matchLen - MIN_MATCH;
    [Nibble(|s.literals|) * 16 + Nibble(m)] + LengthBytes(|s.literals|) + s.literals
    + [s.offset % 256, s.offset / 256] + LengthBytes(m)
  }

  function EncodeSequences(sequences: seq<Sequence>): (r: seq<byte>)
    requires forall s <- sequences :: s.Encodable()
  {
    if sequences == [] then []
    else EncodeSequence(sequences[0]) + EncodeSequences(sequences[1..])
  }

  function EncodeTail(tail: seq<byte>): (r: seq<byte>) {
    [Nibble(|tail|) * 16] + LengthBytes(|tail|) + tail
  }

  function EncodeBlock(block: Block): (r: seq<byte>)
    requires forall s <- block.sequences :: s.Encodable()
  {
    EncodeSequences(block.sequences) + EncodeTail(block.tail)
  }

  // ---- the two are inverse ------------------------------------------------

  lemma {:induction false} ReadExtensionRoundTrip(v: nat, rest: seq<byte>)
    ensures ReadExtension(Extension(v) + rest) == Some(LengthField(v, rest))
    decreases v
  {
    var b := Extension(v) + rest;
    if v >= 255 {
      ReadExtensionRoundTrip(v - 255, rest);
      assert b[1..] == Extension(v - 255) + rest;
    } else {
      assert b[1..] == rest;
    }
  }

  lemma {:induction false} ReadLengthRoundTrip(v: nat, rest: seq<byte>)
    ensures ReadLength(Nibble(v), LengthBytes(v) + rest) == Some(LengthField(v, rest))
  {
    if v >= 15 {
      ReadExtensionRoundTrip(v - 15, rest);
    } else {
      assert [] + rest == rest;
    }
  }

  lemma {:induction false} ParseTail(tail: seq<byte>)
    ensures Parse(EncodeTail(tail)) == Some(Block([], tail))
  {
    var b := EncodeTail(tail);
    assert b[1..] == LengthBytes(|tail|) + tail;
    ReadLengthRoundTrip(|tail|, tail);
  }

  /** What follows the literals of s when rest comes after it. */
  function MatchBytes(s: Sequence, rest: seq<byte>): (r: seq<byte>)
    requires s.Encodable()
  {
    [s.offset % 256, s.offset / 256] + LengthBytes(s.matchLen - MIN_MATCH) + rest
  }

  lemma {:induction false} Regroup(a: seq<byte>, b: seq<byte>, c: seq<byte>, d: seq<byte>, e: seq<byte>, rest: seq<byte>)
    ensures a + b + c + d + e + rest == a + (b + (c + (d + e + rest)))
  {
  }

  lemma {:induction false} SequenceShape(s: Sequence, rest: seq<byte>)
    requires s.Encodable()
    ensures var b := EncodeSequence(s) + rest;
      b[0] / 16 == Nibble(|s.literals|) && b[0] % 16 == Nibble(s.matchLen - MIN_MATCH)
      && b[1..] == LengthBytes(|s.literals|) + (s.literals + MatchBytes(s, rest))
  {
    hide LengthBytes;
    var m := s.matchLen - MIN_MATCH;
    Regroup([Nibble(|s.literals|) * 16 + Nibble(m)], LengthBytes(|s.literals|), s.literals,
            [s.offset % 256, s.offset / 256], LengthBytes(m), rest);
  }

  lemma {:induction false} ParseUnfold(b: seq<byte>, literals: seq<byte>, after: seq<byte>)
    requires b != [] && after != []
    requires ReadLength(b[0] / 16, b[1..]) == Some(LengthField(|literals|, literals + after))
    ensures Parse(b) == ParseMatch(b[0] % 16, literals, after)
  {
    var body := literals + after;
    assert body[..|literals|] == literals && body[|literals|..] == after;
  }

  lemma {:induction false} MatchShape(s: Sequence, rest: seq<byte>)
    requires s.Encodable()
    ensures var b := MatchBytes(s, rest);
      |b| >= 2 && Le16(b[0], b[1]) == s.offset
      && b[2..] == LengthBytes(s.matchLen - MIN_MATCH) + rest
  {
  }

  lemma {:induction false} ParseMatchUnfold(nibble: nat, s: Sequence, b: seq<byte>, m: LengthField, block: Block)
    requires |b| >= 2 && Le16(b[0], b[1]) == s.offset && s.matchLen == m.value + MIN_MATCH
    requires ReadLength(nibble, b[2..]) == Some(m) && Parse(m.rest) == Some(block)
    ensures ParseMatch(nibble, s.literals, b) == Some(Block([s] + block.sequences, block.tail))
  {
  }

  lemma {:induction false} ParseEncodedMatch(s: Sequence, rest: seq<byte>, block: Block)
    requires s.Encodable() && Parse(rest) == Some(block)
    ensures ParseMatch(Nibble(s.matchLen - MIN_MATCH), s.literals, MatchBytes(s, rest))
         == Some(Block([s] + block.sequences, block.tail))
  {
    var m := s.matchLen - MIN_MATCH;
    MatchShape(s, rest);
    ReadLengthRoundTrip(m, rest);
    ParseMatchUnfold(Nibble(m), s, MatchBytes(s, rest), LengthField(m, rest), block);
  }

  lemma {:induction false} ParseSequence(s: Sequence, rest: seq<byte>, block: Block)
    requires s.Encodable() && Parse(rest) == Some(block)
    ensures Parse(EncodeSequence(s) + rest) == Some(Block([s] + block.sequences, block.tail))
  {
    var b := EncodeSequence(s) + rest;
    var after := MatchBytes(s, rest);
    SequenceShape(s, rest);
    ReadLengthRoundTrip(|s.literals|, s.literals + after);
    ParseUnfold(b, s.literals, after);
    ParseEncodedMatch(s, rest, block);
  }

  lemma {:induction false} EncodeBlockFirst(block: Block)
    requires forall s <- block.sequences :: s.Encodable()
    requires block.sequences != []
    ensures EncodeBlock(block) == EncodeSequence(block.sequences[0])
                                + EncodeBlock(Block(block.sequences[1..], block.tail))
  {
  }

  /** Every encodable block is read back unchanged. */
  lemma {:induction false} ParseRoundTrip(block: Block)
    requires forall s <- block.sequences :: s.Encodable()
    ensures Parse(EncodeBlock(block)) == Some(block)
    decreases |block.sequences|
  {
    if block.sequences == [] {
      assert EncodeBlock(block) == EncodeTail(block.tail);
      ParseTail(block.tail);
    } else {
      var rest := Block(block.sequences[1..], block.tail);
      ParseRoundTrip(rest);
      EncodeBlockFirst(block);
      ParseSequence(block.sequences[0], EncodeBlock(rest), rest);
      assert [block.sequences[0]] + rest.sequences == block.sequences;
    }
  }

  lemma {:induction false} ParseMatchFirst(nibble: nat, literals: seq<byte>, b: seq<byte>)
    requires ParseMatch(nibble, literals, b).Some?
    ensures var sequences := ParseMatch(nibble, literals, b).value.sequences;
      sequences != [] && sequences[0].literals == literals
  {
  }

  /** A block that decodes to something starts with a non-zero byte, so a reader
      may skip the zero padding written before it. */
  lemma {:induction false} FirstByteNonZero(b: seq<byte>)
    requires Decode(b).Some? && Decode(b).value != []
    ensures b != [] && b[0] != 0
  {
    if b != [] && b[0] == 0 {
      var lit := LengthField(0, b[1..]);
      assert ReadLength(b[0] / 16, b[1..]) == Some(lit);
      if b[1..] != [] {
        ParseMatchFirst(0, lit.rest[..0], lit.rest[0..]);
      }
    }
  }

  // ---- sizes and extension on the right -----------------------------------

  lemma {:induction false} ExtensionSize(v: nat)
    ensures |Extension(v)| == v / 255 + 1
    decreases v
  {
    if v >= 255 { ExtensionSize(v - 255); }
  }

  /** Encoded size of a length field beyond its nibble. */
  function LengthCost(v: nat): (r: nat) { if v >= 15 then (v - 15) / 255 + 1 else 0 }

  lemma {:induction false} EncodeSequenceSize(s: Sequence)
    requires s.Encodable()
    ensures |EncodeSequence(s)|
         == 1 + LengthCost(|s.literals|) + |s.literals| + 2 + LengthCost(s.matchLen - MIN_MATCH)
  {
    if |s.literals| >= 15 { ExtensionSize(|s.literals| - 15); }
    if s.matchLen - MIN_MATCH >= 15 { ExtensionSize(s.matchLen - MIN_MATCH - 15); }
  }

  lemma {:induction false} EncodeTailSize(tail: seq<byte>)
    ensures |EncodeTail(tail)| == 1 + LengthCost(|tail|) + |tail|
  {
    if |tail| >= 15 { ExtensionSize(|tail| - 15); }
  }

  lemma {:induction false} EncodeSequencesAppend(a: seq<Sequence>, b: seq<Sequence>)
    requires forall s <- a + b :: s.Encodable()
    ensures forall s <- a :: s in a + b
    ensures forall s <- b :: s in a + b
    ensures EncodeSequences(a + b) == EncodeSequences(a) + EncodeSequences(b)
  {
    if a == [] {
      assert a + b == b;
    } else {
      assert (a + b)[1..] == a[1..] + b;
      assert forall s <- a[1..] + b :: s in a + b;
      EncodeSequencesAppend(a[1..], b);
    }
  }

  lemma {:induction false} ReplayAppend(out: seq<byte>, a: seq<Sequence>, b: seq<Sequence>)
    requires Replay(out, a).Some?
    ensures Replay(out, a + b) == Replay(Replay(out, a).value, b)
    decreases |a|
  {
    if a == [] {
      assert a + b == b;
    } else {
      assert (a + b)[1..] == a[1..] + b;
      ReplayAppend(CopyBack(out + a[0].literals, a[0].offset, a[0].matchLen), a[1..], b);
    }
  }
}
