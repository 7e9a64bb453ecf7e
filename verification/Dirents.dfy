/**
 Directory data: entries sorted by name, packed greedily into blocks, and found
 again by a binary search over blocks and one inside a block.
 */
module Dirents {
  import opened Bytes
  import opened Arith
  import opened Spool
  import opened FileMap
  import opened FlatRead
  import opened ZIndex
  import opened ZTrailing

  const DIRENT := 12   // bytes of a fixed-size entry header

  datatype Entry = Entry(name: seq<byte>, nid: nat, ftype: byte)

  // ---- names in order ----------------------------------------------------------------

  predicate Less(a: seq<byte>, b: seq<byte>) {
    b != [] && (a == [] || a[0] < b[0] || (a[0] == b[0] && Less(a[1..], b[1..])))
  }

  lemma {:induction false} LessIsTotal(a: seq<byte>, b: seq<byte>)
    ensures Less(a, b) || a == b || Less(b, a)
    ensures !(Less(a, b) && Less(b, a)) && (a == b ==> !Less(a, b))
    decreases |a|
  {
    if a != [] && b != [] {
      LessIsTotal(a[1..], b[1..]);
      if a[0] == b[0] && a[1..] == b[1..] { assert a == [a[0]] + a[1..] == b; }
    }
  }

  lemma {:induction false} LessIsTransitive(a: seq<byte>, b: seq<byte>, c: seq<byte>)
    requires Less(a, b) && Less(b, c)
    ensures Less(a, c)
    decreases |a|
  {
    if a != [] && a[0] == b[0] == c[0] { LessIsTransitive(a[1..], b[1..], c[1..]); }
  }

  function Compare(a: seq<byte>, b: seq<byte>): (r: int) {
    if a == b then 0 else if Less(a, b) then -1 else 1
  }

  /** Strictly increasing names, as sorting distinct names leaves them. */
  ghost predicate Sorted(ents: seq<Entry>) {
    forall i, j :: 0 <= i < j < |ents| ==> Less(ents[i].name, ents[j].name)
  }

  // ---- writing -------------------------------------------------------------------------

  /** The length of the names of entries a up to b. */
  function NamesSize(ents: seq<Entry>, a: nat, b: nat): (n: nat)
    requires a <= b <= |ents|
  {
    if a == b then 0 else NamesSize(ents, a, b - 1) + |ents[b - 1].name|
  }

  /** The bytes entries a up to b take in one block. */
  function Used(ents: seq<Entry>, a: nat, b: nat): (n: nat)
    requires a <= b <= |ents|
  {
    DIRENT * (b - a) + NamesSize(ents, a, b)
  }

  /** Where a block that starts at a and has room up to b ends. */
  function FitEnd(bs: nat, ents: seq<Entry>, a: nat, b: nat): (r: nat)
    requires a <= b <= |ents|
    ensures b <= r <= |ents|
    ensures Used(ents, a, b) <= bs ==> Used(ents, a, r) <= bs
    ensures r < |ents| ==> Used(ents, a, r + 1) > bs
    decreases |ents| - b
  {
    if b < |ents| && Used(ents, a, b + 1) <= bs then FitEnd(bs, ents, a, b + 1) else b
  }

  /** The block from a on takes as many entries as fit, at least one. */
  function BlockEnd(bs: nat, ents: seq<Entry>, a: nat): (r: nat)
    requires a < |ents|
    ensures a < r <= |ents|
  {
    Max(a + 1, FitEnd(bs, ents, a, a))
  }

  function Header(e: Entry, nameOff: nat): (r: seq<byte>)
    ensures |r| == DIRENT
  {
    Put64(e.nid % 0x1_0000_0000_0000_0000) + Put16(nameOff % 65536) + [e.ftype, 0]
  }

  /** Where the name of entry i starts in the block of entries a up to b. */
  function NameOff(ents: seq<Entry>, a: nat, b: nat, i: nat): (r: nat)
    requires a <= i <= b <= |ents|
  {
    DIRENT * (b - a) + NamesSize(ents, a, i)
  }

  function Headers(ents: seq<Entry>, a: nat, b: nat, n: nat): (r: seq<byte>)
    requires a <= n <= b <= |ents|
    ensures |r| == DIRENT * (n - a)
    decreases n
  {
    if n == a then [] else Headers(ents, a, b, n - 1) + Header(ents[n - 1], NameOff(ents, a, b, n - 1))
  }

  function Names(ents: seq<Entry>, a: nat, b: nat): (r: seq<byte>)
    requires a <= b <= |ents|
    ensures |r| == NamesSize(ents, a, b)
    decreases b
  {
    if a == b then [] else Names(ents, a, b - 1) + ents[b - 1].name
  }

  function BlockBytes(ents: seq<Entry>, a: nat, b: nat): (r: seq<byte>)
    requires a <= b <= |ents|
    ensures |r| == Used(ents, a, b)
  {
    Headers(ents, a, b, b) + Names(ents, a, b)
  }

  /** Zeros up to the next block boundary. */
  function PadTo(bs: nat, n: nat): (r: nat)
    requires bs > 0
  {
    if n % bs == 0 then 0 else bs - n % bs
  }

  /** A block as it is written: padded unless it is the last. */
  function PaddedBlock(bs: nat, ents: seq<Entry>, a: nat): (r: seq<byte>)
    requires bs > 0 && a < |ents|
  {
    var b := BlockEnd(bs, ents, a);
    BlockBytes(ents, a, b) + Zeros(if b < |ents| then PadTo(bs, Used(ents, a, b)) else 0)
  }

  /** The directory's bytes from entry a on, block after block. */
  function DirBytes(bs: nat, ents: seq<Entry>, a: nat): (r: seq<byte>)
    requires bs > 0 && a <= |ents|
    decreases |ents| - a
  {
    if a == |ents| then [] else PaddedBlock(bs, ents, a) + DirBytes(bs, ents, BlockEnd(bs, ents, a))
  }

  /** The entries have the same names, whatever they lead to. */
  predicate SameNames(x: seq<Entry>, y: seq<Entry>) { |x| == |y| && forall i :: 0 <= i < |x| ==> x[i].name == y[i].name }

  lemma {:induction false} SameUsed(x: seq<Entry>, y: seq<Entry>, a: nat, b: nat)
    requires SameNames(x, y) && a <= b <= |x|
    ensures NamesSize(x, a, b) == NamesSize(y, a, b) && Used(x, a, b) == Used(y, a, b)
    decreases b
  {
    if a < b { SameUsed(x, y, a, b - 1); }
  }

  lemma {:induction false} SameFit(bs: nat, x: seq<Entry>, y: seq<Entry>, a: nat, b: nat)
    requires SameNames(x, y) && a <= b <= |x|
    ensures FitEnd(bs, x, a, b) == FitEnd(bs, y, a, b)
    decreases |x| - b
  {
    hide Used;
    if b < |x| {
      SameUsed(x, y, a, b + 1);
      SameFit(bs, x, y, a, b + 1);
    }
  }

  /** The size of a directory depends on its names alone. */
  lemma {:induction false} SameSize(bs: nat, x: seq<Entry>, y: seq<Entry>, a: nat)
    requires bs > 0 && SameNames(x, y) && a <= |x|
    ensures |DirBytes(bs, x, a)| == |DirBytes(bs, y, a)|
    decreases |x| - a
  {
    hide Used, FitEnd;
    if a < |x| {
      SameFit(bs, x, y, a, a);
      var b := BlockEnd(bs, x, a);
      SameUsed(x, y, a, b);
      SameSize(bs, x, y, b);
    }
  }

  /** Finds how many entries the block from a on takes, and how much of it they use. */
  method FillBlock(bs: nat, ents: seq<Entry>, a: nat) returns (end: nat, used: nat)
    requires a < |ents|
    ensures end == BlockEnd(bs, ents, a) && used == Used(ents, a, end)
  {
    end, used := a, 0;
    var j, nameSize := a, 0;
    while j < |ents|
      invariant a <= j <= |ents| && end == j && nameSize == NamesSize(ents, a, j) && used == Used(ents, a, j)
      invariant FitEnd(bs, ents, a, a) == FitEnd(bs, ents, a, j)
    {
      nameSize := nameSize + |ents[j].name|;
      var needed := (j - a + 1) * DIRENT + nameSize;
      if needed > bs { break; }
      used, end, j := needed, j + 1, j + 1;
    }
    if end == a {
      used, end := DIRENT + |ents[a].name|, a + 1;
      assert NamesSize(ents, a, a + 1) == NamesSize(ents, a, a) + |ents[a].name|;
    }
  }

  /** The size a directory is planned with is the size of its bytes. */
  method DirentDataSize(bs: nat, ents: seq<Entry>) returns (total: nat)
    requires 27 <= bs && (|ents| == 2 ==> NamesSize(ents, 0, 2) == 3)   // "." and ".." are always there
    ensures total == |DirBytes(bs, ents, 0)|
  {
    if |ents| == 2 {
      NoChildren(bs, ents);
      return 2 * DIRENT + 1 + 2;
    }
    hide BlockEnd, PadTo, BlockBytes, Used;
    total := 0;
    var i := 0;
    while i < |ents|
      invariant 0 <= i <= |ents| && total + |DirBytes(bs, ents, i)| == |DirBytes(bs, ents, 0)|
    {
      var used;
      i, used := FillBlock(bs, ents, i);
      RoundUp(bs, used);
      if i < |ents| && used % bs != 0 { used := bs * CeilDiv(used, bs); }
      total := total + used;
    }
  }

  lemma {:induction false} RoundUp(bs: nat, n: nat)
    requires bs > 0
    ensures n + PadTo(bs, n) == if n % bs != 0 then bs * CeilDiv(n, bs) else n
    ensures CeilDiv(n, bs) >= 0
  {
    CeilNat(n, bs);
    if n % bs != 0 {
      assert n == bs * (n / bs) + n % bs;
      assert bs * (n / bs + 1) == bs * (n / bs) + bs;
      CeilUnique(n, bs, n / bs + 1);
    }
  }

  lemma {:induction false} NoChildren(bs: nat, ents: seq<Entry>)
    requires 27 <= bs && |ents| == 2 && NamesSize(ents, 0, 2) == 3
    ensures |DirBytes(bs, ents, 0)| == 27
  {
    assert NamesSize(ents, 0, 2) == NamesSize(ents, 0, 1) + |ents[1].name|;
    assert Used(ents, 0, 2) == 27 && Used(ents, 0, 1) <= bs;
    assert FitEnd(bs, ents, 0, 0) == FitEnd(bs, ents, 0, 1) == FitEnd(bs, ents, 0, 2) == 2;
  }

  /** Writes the directory's bytes. */
  method WriteDirents(bs: nat, ents: seq<Entry>) returns (out: seq<byte>)
    requires bs > 0
    ensures out == DirBytes(bs, ents, 0)
  {
    hide BlockEnd, PadTo, BlockBytes, Used;
    out := [];
    var i := 0;
    assert [] + DirBytes(bs, ents, 0) == DirBytes(bs, ents, 0);
    while i < |ents|
      invariant 0 <= i <= |ents| && out + DirBytes(bs, ents, i) == DirBytes(bs, ents, 0)
    {
      var start := i;
      var used;
      i, used := FillBlock(bs, ents, i);
      var block := WriteBlock(ents, start, i);
      PadIs(bs, used);
      if i < |ents| && used % bs != 0 { block := block + Zeros(bs - used % bs); }
      assert block == PaddedBlock(bs, ents, start);
      assert (out + block) + DirBytes(bs, ents, i) == out + (block + DirBytes(bs, ents, i));
      out := out + block;
    }
    assert out + [] == out;
  }

  lemma {:induction false} PadIs(bs: nat, n: nat)
    requires bs > 0
    ensures PadTo(bs, n) == if n % bs != 0 then bs - n % bs else 0
  {
  }

  /** Writes one block: the headers, then the names. */
  method WriteBlock(ents: seq<Entry>, a: nat, b: nat) returns (out: seq<byte>)
    requires a < b <= |ents|
    ensures out == BlockBytes(ents, a, b)
  {
    var headers := WriteHeaders(ents, a, b);
    hide Headers;
    out := headers;
    for j := a to b
      invariant out == headers + Names(ents, a, j)
    {
      out := out + ents[j].name;
    }
  }

  /** Writes the headers, whose 16-bit name offsets add up. */
  method WriteHeaders(ents: seq<Entry>, a: nat, b: nat) returns (out: seq<byte>)
    requires a < b <= |ents|
    ensures out == Headers(ents, a, b, b)
  {
    hide Header;
    out := [];
    var nameOff := DIRENT * (b - a) % 65536;
    for j := a to b
      invariant out == Headers(ents, a, b, j)
      invariant nameOff == NameOff(ents, a, b, if j > a then j - 1 else a) % 65536
    {
      if j > a {
        OffsetWraps(NameOff(ents, a, b, j - 1), |ents[j - 1].name|);
        nameOff := (nameOff + |ents[j - 1].name|) % 65536;
      }
      HeaderWraps(ents[j], nameOff, NameOff(ents, a, b, j));
      out := out + Header(ents[j], nameOff);
    }
  }

  lemma {:induction false} OffsetWraps(x: nat, n: nat)
    ensures (x % 65536 + n) % 65536 == (x + n) % 65536
  {
  }

  lemma {:induction false} HeaderWraps(e: Entry, x: nat, y: nat)
    requires x == y % 65536
    ensures Header(e, x) == Header(e, y)
  {
  }

  // ---- reading a block -----------------------------------------------------------------

  function TrimNul(s: seq<byte>): (r: seq<byte>) {
    if s == [] || s[0] == 0 then [] else [s[0]] + TrimNul(s[1..])
  }

  ghost predicate NulFree(name: seq<byte>) { forall i :: 0 <= i < |name| ==> name[i] != 0 }

  lemma {:induction false} TrimPadding(name: seq<byte>, pad: nat)
    requires NulFree(name)
    ensures TrimNul(name + Zeros(pad)) == name
    decreases |name|
  {
    if name == [] {
      assert name + Zeros(pad) == Zeros(pad);
    } else {
      TrimPadding(name[1..], pad);
      assert (name + Zeros(pad))[1..] == name[1..] + Zeros(pad);
      assert name == [name[0]] + name[1..];
    }
  }

  function NameOffAt(buf: seq<byte>, i: nat): (r: nat)
    requires DIRENT * i + DIRENT <= |buf|
  {
    Get16(buf, DIRENT * i + 8)
  }

  /** Where the name of entry i of n ends: at the next name, or with the block.  The
      block's length is taken modulo 2^16. */
  function NameEndAt(buf: seq<byte>, i: nat, n: nat): (r: Option<nat>) {
    if i + 1 < n then if DIRENT * (i + 1) + 10 > |buf| then None else Some(Get16(buf, DIRENT * (i + 1) + 8))
    else Some(|buf| % 65536)
  }

  /** Decodes entry i of the n in a block. */
  function BlockDirent(buf: seq<byte>, i: nat, n: nat): (r: Option<Entry>) {
    if DIRENT * i + DIRENT > |buf| then None
    else
      var start, end := NameOffAt(buf, i), NameEndAt(buf, i, n);
      if end.None? || start > end.value || end.value > |buf| then None
      else
        var name := buf[start..end.value];
        Some(Entry(if i + 1 == n then TrimNul(name) else name, Get64(buf[DIRENT * i..DIRENT * i + 8]), buf[DIRENT * i + 10]))
  }

  function BlockFirstName(buf: seq<byte>): (r: Option<seq<byte>>) {
    if |buf| < DIRENT then None
    else
      var start := NameOffAt(buf, 0);
      var n := start / DIRENT;
      if n == 0 || start > |buf| then None
      else
        var end := NameEndAt(buf, 0, n);
        if end.None? || start > end.value || end.value > |buf| then None
        else Some(TrimNul(buf[start..end.value]))
  }

  /** Names are not empty and hold no NUL; inode numbers have 64 bits. */
  ghost predicate EntryOk(e: Entry) { e.name != [] && NulFree(e.name) && e.nid < 0x1_0000_0000_0000_0000 }

  /** A block of entries a up to b, possibly padded, as a reader gets it. */
  ghost predicate Reads(buf: seq<byte>, ents: seq<Entry>, a: nat, b: nat) {
    a < b <= |ents| && |buf| <= MAX_BLOCK && Used(ents, a, b) <= |buf|
    && buf == BlockBytes(ents, a, b) + Zeros(|buf| - Used(ents, a, b))
    && forall i :: a <= i < b ==> EntryOk(ents[i])
  }

  lemma {:induction false} HeaderAt(ents: seq<Entry>, a: nat, b: nat, n: nat, i: nat)
    requires a <= i < n <= b <= |ents|
    ensures Slice(Headers(ents, a, b, n), DIRENT * (i - a), DIRENT) == Header(ents[i], NameOff(ents, a, b, i))
    decreases n
  {
    hide Header, NameOff;
    if i < n - 1 {
      HeaderAt(ents, a, b, n - 1, i);
      SlicePrefix(Headers(ents, a, b, n - 1), Header(ents[n - 1], NameOff(ents, a, b, n - 1)), DIRENT * (i - a), DIRENT);
    }
  }

  lemma {:induction false} NameAt(ents: seq<Entry>, a: nat, b: nat, i: nat)
    requires a <= i < b <= |ents|
    ensures NamesSize(ents, a, i + 1) <= NamesSize(ents, a, b)
    ensures Names(ents, a, b)[NamesSize(ents, a, i)..NamesSize(ents, a, i + 1)] == ents[i].name
    decreases b
  {
    if i < b - 1 {
      NameAt(ents, a, b - 1, i);
      assert Names(ents, a, b)[NamesSize(ents, a, i)..NamesSize(ents, a, i + 1)]
          == Names(ents, a, b - 1)[NamesSize(ents, a, i)..NamesSize(ents, a, i + 1)];
    }
  }

  lemma {:induction false} HeaderReads(e: Entry, off: nat)
    requires e.nid < 0x1_0000_0000_0000_0000 && off < 65536
    ensures var h := Header(e, off); Get64(h[..8]) == e.nid && Get16(h, 8) == off && h[10] == e.ftype
  {
    hide Get64, Put64;
    var h := Header(e, off);
    Get64Put64(e.nid);
    assert h[..8] == Put64(e.nid);
  }

  lemma {:induction false} HeaderInPlace(buf: seq<byte>, ents: seq<Entry>, a: nat, b: nat, i: nat)
    requires Reads(buf, ents, a, b) && a <= i < b
    ensures DIRENT * (i - a) + DIRENT <= DIRENT * (b - a) <= |buf| && NameOff(ents, a, b, i) < |buf| <= MAX_BLOCK
    ensures buf[DIRENT * (i - a)..DIRENT * (i - a) + DIRENT] == Header(ents[i], NameOff(ents, a, b, i))
  {
    hide Header, NulFree, Zeros;
    NameAt(ents, a, b, i);
    HeaderAt(ents, a, b, b, i);
    assert Headers(ents, a, b, b) == buf[..DIRENT * (b - a)];
  }

  /** The header fields of entry i, read in place. */
  lemma {:induction false} FieldsRead(buf: seq<byte>, ents: seq<Entry>, a: nat, b: nat, i: nat)
    requires Reads(buf, ents, a, b) && a <= i < b
    ensures DIRENT * (i - a) + DIRENT <= |buf| && NameOffAt(buf, i - a) == NameOff(ents, a, b, i)
    ensures var at := DIRENT * (i - a); Get64(buf[at..at + 8]) == ents[i].nid && buf[at + 10] == ents[i].ftype
  {
    hide Get64, Header, BlockBytes, NameOff, Zeros, Used;
    var at, h := DIRENT * (i - a), Header(ents[i], NameOff(ents, a, b, i));
    HeaderInPlace(buf, ents, a, b, i);
    HeaderReads(ents[i], NameOff(ents, a, b, i));
    assert buf[at..at + 8] == h[..8];
    assert buf[at + 8] == h[8] && buf[at + 9] == h[9] && buf[at + 10] == h[10];
  }

  /** The name of entry i, read in place; the padding follows the last one. */
  lemma {:induction false} NameReads(buf: seq<byte>, ents: seq<Entry>, a: nat, b: nat, i: nat)
    requires Reads(buf, ents, a, b) && a <= i < b
    ensures var off := NameOff(ents, a, b, i);
      off + |ents[i].name| == NameOff(ents, a, b, i + 1) <= |buf| && buf[off..off + |ents[i].name|] == ents[i].name
    ensures i == b - 1 ==> buf[NameOff(ents, a, b, i)..] == ents[i].name + Zeros(|buf| - Used(ents, a, b))
  {
    hide Header, Headers;
    var off, len := NameOff(ents, a, b, i), |ents[i].name|;
    NameAt(ents, a, b, i);
    var names := Names(ents, a, b);
    assert buf[DIRENT * (b - a)..Used(ents, a, b)] == names;
    assert buf[off..off + len] == names[NamesSize(ents, a, i)..NamesSize(ents, a, i + 1)];
  }

  lemma {:induction false} NameEndReads(buf: seq<byte>, ents: seq<Entry>, a: nat, b: nat, i: nat)
    requires Reads(buf, ents, a, b) && a <= i < b
    ensures NameEndAt(buf, i - a, b - a) == Some(if i + 1 < b then NameOff(ents, a, b, i + 1) else |buf| % MAX_BLOCK)
  {
    hide Reads, NameOff;
    ReadsShort(buf, ents, a, b);
    if i + 1 < b { FieldsRead(buf, ents, a, b, i + 1); }
  }

  lemma {:induction false} ReadsShort(buf: seq<byte>, ents: seq<Entry>, a: nat, b: nat)
    requires Reads(buf, ents, a, b)
    ensures |buf| <= MAX_BLOCK && a < b <= |ents| && forall i :: a <= i < b ==> NulFree(ents[i].name)
  {
  }

  /** Every entry of a written block is decoded, but the last of one that is 64 KiB long:
      the end of its name wraps to zero. */
  lemma {:induction false} DirentReads(buf: seq<byte>, ents: seq<Entry>, a: nat, b: nat, i: nat)
    requires Reads(buf, ents, a, b) && a <= i < b
    ensures BlockDirent(buf, i - a, b - a) == if i == b - 1 && |buf| == MAX_BLOCK then None else Some(ents[i])
  {
    hide Reads, NameOff, NameOffAt, NameEndAt, Get64, NulFree, EntryOk;
    ReadsShort(buf, ents, a, b);
    FieldsRead(buf, ents, a, b, i);
    NameEndReads(buf, ents, a, b, i);
    NameReads(buf, ents, a, b, i);
    OffsetPositive(ents, a, b, i);
    if i == b - 1 && |buf| < MAX_BLOCK {
      assert buf[NameOff(ents, a, b, i)..|buf|] == buf[NameOff(ents, a, b, i)..];
      TrimPadding(ents[i].name, |buf| - Used(ents, a, b));
    }
  }

  lemma {:induction false} OffsetPositive(ents: seq<Entry>, a: nat, b: nat, i: nat)
    requires a <= i < b <= |ents|
    ensures NameOff(ents, a, b, i) > 0
  {
  }

  lemma {:induction false} FirstReads(buf: seq<byte>, ents: seq<Entry>, a: nat, b: nat)
    requires Reads(buf, ents, a, b)
    ensures |buf| >= DIRENT && NameOffAt(buf, 0) == DIRENT * (b - a) <= |buf|
    ensures BlockFirstName(buf) == if b == a + 1 && |buf| == MAX_BLOCK then None else Some(ents[a].name)
  {
    hide Reads, NameOffAt, NameEndAt, NulFree, Used;
    ReadsShort(buf, ents, a, b);
    FieldsRead(buf, ents, a, b, a);
    NameEndReads(buf, ents, a, b, a);
    NameReads(buf, ents, a, b, a);
    DivUnique(DIRENT * (b - a), DIRENT, b - a, 0);
    TrimPadding(ents[a].name, if b == a + 1 then |buf| - Used(ents, a, b) else 0);
    if b == a + 1 {
      if |buf| < MAX_BLOCK { assert buf[NameOff(ents, a, b, a)..|buf|] == buf[NameOff(ents, a, b, a)..]; }
    } else {
      assert ents[a].name + Zeros(0) == ents[a].name;
    }
  }

  // ---- searching a block ------------------------------------------------------------------

  datatype Result = Found(nid: nat, ftype: byte) | NotExist | Invalid

  /** r is the entry with the target's name among a up to b, or there is none. */
  ghost predicate Answers(r: Result, ents: seq<Entry>, a: nat, b: nat, target: seq<byte>)
    requires a <= b <= |ents|
  {
    match r
    case Found(nid, ftype) => Entry(target, nid, ftype) in ents[a..b]
    case NotExist => forall i :: a <= i < b ==> ents[i].name != target
    case Invalid => false
  }

  /** Binary search inside one block.  In a block of 64 KiB the last name is lost. */
  method LookupBlock(buf: seq<byte>, target: seq<byte>, ghost ents: seq<Entry>, ghost a: nat, ghost b: nat) returns (r: Result)
    ensures Reads(buf, ents, a, b) && Sorted(ents) && |buf| < MAX_BLOCK ==> Answers(r, ents, a, b, target)
    ensures Reads(buf, ents, a, b) && Sorted(ents) && |buf| == MAX_BLOCK && target == ents[b - 1].name ==> r == Invalid
  {
    hide Reads, BlockDirent, NameOffAt, Less, Sorted, BlockFirstName;
    if Reads(buf, ents, a, b) { ReadsShort(buf, ents, a, b); }
    ghost var ok := Reads(buf, ents, a, b) && Sorted(ents) && |buf| < MAX_BLOCK;
    ghost var lost := Reads(buf, ents, a, b) && Sorted(ents) && |buf| == MAX_BLOCK && target == ents[b - 1].name;
    if ok || lost { FirstReads(buf, ents, a, b); }
    if |buf| < DIRENT { return Invalid; }
    var start := NameOffAt(buf, 0);
    if start % DIRENT != 0 { return Invalid; }
    var n := start / DIRENT;
    if start > |buf| { return Invalid; }
    var lo, hi := 0, n;
    while lo < hi
      invariant 0 <= lo <= hi <= n
      invariant ok ==> n == b - a && AllDiffer(ents, a, a + lo, target) && AllDiffer(ents, a + hi, b, target)
      invariant lost ==> n == hi == b - a && lo < n
    {
      var mid := lo + (hi - lo) / 2;
      if ok || lost { DirentReads(buf, ents, a, b, a + mid); }
      if lost && mid < n - 1 { BeforeLast(ents, a, b, a + mid); }
      var de := BlockDirent(buf, mid, n);
      if de.None? { return Invalid; }
      var c := Compare(de.value.name, target);
      if c == 0 {
        assert ok ==> ents[a..b][mid] == de.value;
        return Found(de.value.nid, de.value.ftype);
      }
      if ok { SplitAt(ents, a, b, a + mid, target); }
      if c == -1 { lo := mid + 1; } else { hi := mid; }
    }
    r := NotExist;
  }

  lemma {:induction false} BeforeLast(ents: seq<Entry>, a: nat, b: nat, i: nat)
    requires Sorted(ents) && a <= i < b - 1 && b <= |ents|
    ensures Compare(ents[i].name, ents[b - 1].name) == -1
  {
    hide Less;
    LessIsTotal(ents[i].name, ents[b - 1].name);
  }

  /** An entry before the target rules out all before it, one after it all after it. */
  lemma {:induction false} SplitAt(ents: seq<Entry>, a: nat, b: nat, i: nat, target: seq<byte>)
    requires Sorted(ents) && a <= i < b <= |ents|
    ensures Compare(ents[i].name, target) == -1 ==> AllDiffer(ents, a, i + 1, target)
    ensures Compare(ents[i].name, target) == 1 ==> AllDiffer(ents, i, b, target)
  {
    hide Less;
    LessIsTotal(ents[i].name, target);
    forall j | a <= j < b ensures j < i ==> !Less(ents[i].name, ents[j].name) {
      LessIsTotal(ents[i].name, ents[j].name);
    }
  }

  // ---- searching the directory --------------------------------------------------------------

  /** Every entry fits a block of its own. */
  ghost predicate Fit(bs: nat, ents: seq<Entry>) {
    forall e <- ents :: DIRENT + |e.name| <= bs
  }

  /** The number of blocks from entry a on. */
  function Blocks(bs: nat, ents: seq<Entry>, a: nat): (n: nat)
    requires a <= |ents|
    ensures n == 0 <==> a == |ents|
    decreases |ents| - a
  {
    if a == |ents| then 0 else 1 + Blocks(bs, ents, BlockEnd(bs, ents, a))
  }

  /** The first entry of block k, counting from entry a on. */
  function Cut(bs: nat, ents: seq<Entry>, a: nat, k: nat): (r: nat)
    requires a <= |ents| && k <= Blocks(bs, ents, a)
    ensures a <= r <= |ents| && (k < Blocks(bs, ents, a) <==> r < |ents|)
    decreases k
  {
    if k == 0 then a else Cut(bs, ents, BlockEnd(bs, ents, a), k - 1)
  }

  lemma {:induction false} CutNext(bs: nat, ents: seq<Entry>, a: nat, k: nat)
    requires a <= |ents| && k < Blocks(bs, ents, a)
    ensures Cut(bs, ents, a, k + 1) == BlockEnd(bs, ents, Cut(bs, ents, a, k))
    decreases k
  {
    hide BlockEnd;
    if k > 0 { CutNext(bs, ents, BlockEnd(bs, ents, a), k - 1); }
  }

  lemma {:induction false} CutMonotone(bs: nat, ents: seq<Entry>, a: nat, j: nat, k: nat)
    requires a <= |ents| && j <= k <= Blocks(bs, ents, a)
    ensures Cut(bs, ents, a, j) <= Cut(bs, ents, a, k)
    decreases k - j
  {
    hide BlockEnd, Blocks, Cut;
    if j < k { CutNext(bs, ents, a, j); CutMonotone(bs, ents, a, j + 1, k); }
  }

  lemma {:induction false} BlockFits(bs: nat, ents: seq<Entry>, a: nat)
    requires bs > 0 && a < |ents| && Fit(bs, ents)
    ensures 0 < Used(ents, a, BlockEnd(bs, ents, a)) <= bs
    ensures |PaddedBlock(bs, ents, a)| == if BlockEnd(bs, ents, a) < |ents| then bs else Used(ents, a, BlockEnd(bs, ents, a))
  {
    var b := BlockEnd(bs, ents, a);
    assert DIRENT + |ents[a].name| <= bs;
    assert NamesSize(ents, a, a + 1) == NamesSize(ents, a, a) + |ents[a].name|;
    assert b == FitEnd(bs, ents, a, a);
    var n := Used(ents, a, b);
    if n < bs { DivUnique(n, bs, 0, n); } else { DivUnique(n, bs, 1, 0); }
  }

  /** Block k of the directory, as a reader gets it. */
  function BlockAt(bs: nat, dir: seq<byte>, k: nat): (r: seq<byte>) { Slice(dir, bs * k, BlockLen(bs, |dir|, k)) }

  lemma {:induction false} DirBlockAt(bs: nat, ents: seq<Entry>, a: nat, k: nat)
    requires bs > 0 && a <= |ents| && Fit(bs, ents) && k < Blocks(bs, ents, a)
    ensures BlockAt(bs, DirBytes(bs, ents, a), k) == PaddedBlock(bs, ents, Cut(bs, ents, a, k))
    decreases k
  {
    hide BlockEnd, PaddedBlock, Used;
    var first, b := PaddedBlock(bs, ents, a), BlockEnd(bs, ents, a);
    var rest := DirBytes(bs, ents, b);
    var dir := DirBytes(bs, ents, a);
    assert dir == first + rest;
    BlockFits(bs, ents, a);
    if k == 0 {
      assert bs * 0 == 0;
      assert Slice(dir, 0, |first|) == first;
      DirSize(bs, ents, b);
    } else {
      DirBlockAt(bs, ents, b, k - 1);
      assert bs * k == bs + bs * (k - 1);
      SliceAfter(first, rest, bs * (k - 1), BlockLen(bs, |rest|, k - 1));
    }
  }

  lemma {:induction false} SliceAfter(a: seq<byte>, b: seq<byte>, at: nat, n: int)
    ensures Slice(a + b, |a| + at, n) == Slice(b, at, n)
  {
  }

  /** The directory has as many blocks as its size says. */
  lemma {:induction false} DirSize(bs: nat, ents: seq<Entry>, a: nat)
    requires bs > 0 && a <= |ents| && Fit(bs, ents)
    ensures CeilDiv(|DirBytes(bs, ents, a)|, bs) == Blocks(bs, ents, a)
    ensures a < |ents| ==> |DirBytes(bs, ents, a)| > 0
    decreases |ents| - a
  {
    hide BlockEnd, PaddedBlock, Used;
    if a == |ents| {
      CeilUnique(0, bs, 0);
    } else {
      var b := BlockEnd(bs, ents, a);
      BlockFits(bs, ents, a);
      DirSize(bs, ents, b);
      var rest, n := |DirBytes(bs, ents, b)|, Blocks(bs, ents, b);
      CeilBounds(rest, bs);
      assert bs * (n + 1) == bs * n + bs;
      if b == |ents| { CeilUnique(|PaddedBlock(bs, ents, a)|, bs, 1); } else { CeilUnique(bs + rest, bs, n + 1); }
    }
  }

  /** The bytes of a directory of sorted, distinct names, in blocks a reader takes. */
  ghost predicate Directory(bs: nat, dir: seq<byte>, ents: seq<Entry>) {
    0 < bs <= MAX_BLOCK && Fit(bs, ents) && Sorted(ents) && dir == DirBytes(bs, ents, 0)
    && forall i :: 0 <= i < |ents| ==> EntryOk(ents[i])
  }

  /** No block of the directory is 64 KiB long. */
  predicate Searchable(bs: nat, dir: seq<byte>) { bs < MAX_BLOCK || |dir| < MAX_BLOCK }

  lemma {:induction false} BlockReads(bs: nat, dir: seq<byte>, ents: seq<Entry>, k: nat)
    requires Directory(bs, dir, ents) && k < Blocks(bs, ents, 0)
    ensures Reads(BlockAt(bs, dir, k), ents, Cut(bs, ents, 0, k), Cut(bs, ents, 0, k + 1))
  {
    hide BlockEnd, EntryOk, Sorted, Fit, BlockAt;
    var a := Cut(bs, ents, 0, k);
    CutNext(bs, ents, 0, k);
    DirBlockAt(bs, ents, 0, k);
    BlockShort(bs, dir, k);
    BlockFits(bs, ents, a);
  }

  lemma {:induction false} BlockShort(bs: nat, dir: seq<byte>, k: nat)
    ensures |BlockAt(bs, dir, k)| <= |dir|
  {
  }

  /** The target is not before the first block whose first name exceeds it, nor is it
      in or after that block. */
  lemma {:induction false} BlockDecides(bs: nat, ents: seq<Entry>, k: nat, target: seq<byte>)
    requires Sorted(ents) && k < Blocks(bs, ents, 0)
    ensures var a := Cut(bs, ents, 0, k);
      (Compare(ents[a].name, target) <= 0 ==> forall i :: 0 <= i < a ==> ents[i].name != target)
      && (Compare(ents[a].name, target) > 0 ==> forall i :: a <= i < |ents| ==> ents[i].name != target)
  {
    hide Less, Cut, Blocks;
    var a := Cut(bs, ents, 0, k);
    forall i | 0 <= i < a ensures ents[i].name == target ==> Compare(ents[a].name, target) > 0 {
      LessIsTotal(ents[i].name, ents[a].name);
    }
    forall i | a <= i < |ents| ensures ents[i].name == target ==> Compare(ents[a].name, target) <= 0 {
    }
  }

  /** Loading at a block's start gives the whole block. */
  lemma {:induction false} WholeBlock(bs: nat, dir: seq<byte>, k: nat)
    requires bs > 0 && k < CeilDiv(|dir|, bs)
    ensures bs * k < |dir| && RestOfBlock(bs, dir, bs * k) == BlockAt(bs, dir, k)
  {
    MulMod(k, bs);
    CeilBounds(|dir|, bs);
    MulMonotone(bs, k + 1, CeilDiv(|dir|, bs));
    assert bs * (k + 1) == bs * k + bs;
  }

  /** Finds the only block that can hold the target, then searches it.  On a written
      directory without 64 KiB blocks this answers for every name: found exactly when it
      is there.  With one, the last name of the first block is not found. */
  method Lookup(bs: nat, image: seq<byte>, fi: FlatInode, target: seq<byte>, ghost dir: seq<byte>, ghost ents: seq<Entry>)
    returns (r: Result)
    requires bs > 0
    ensures FlatAt(bs, image, fi, dir) && Directory(bs, dir, ents) && Searchable(bs, dir) ==> Answers(r, ents, 0, |ents|, target)
    ensures FlatAt(bs, image, fi, dir) && Directory(bs, dir, ents) && LastOfFirst(bs, dir, ents, target) ==> r == Invalid
  {
    hide Directory, FlatAt, RestOfBlock, Less, Cut, Blocks, BlockFirstName, BlockAt, Reads, DirBytes, Sorted, CeilDiv, Searchable, LastOfFirst;
    ghost var written := FlatAt(bs, image, fi, dir) && Directory(bs, dir, ents);
    ghost var ok, lost := written && Searchable(bs, dir), written && LastOfFirst(bs, dir, ents, target);
    CeilNat(fi.size, bs);
    var nblocks := CeilDiv(fi.size, bs);
    if written { DirectoryFacts(bs, dir, ents); FlatSize(bs, image, fi, dir); }
    if lost { LostFacts(bs, dir, ents, target); }
    var lastIdx, lastBlk := -1, [];
    var lo, hi := 0, nblocks;
    while lo < hi
      invariant 0 <= lo <= hi <= nblocks && lastIdx <= lo - 1
      invariant written ==> lastIdx == lo - 1 && (lo > 0 ==> lastBlk == BlockAt(bs, dir, lo - 1))
      invariant ok && lo > 0 ==> AllDiffer(ents, 0, Cut(bs, ents, 0, lo - 1), target)
      invariant ok ==> AllDiffer(ents, Cut(bs, ents, 0, hi), |ents|, target)
      invariant lost ==> lo <= 1 <= hi
    {
      var mid := lo + (hi - lo) / 2;
      if written { WholeBlock(bs, dir, mid); FirstOf(bs, dir, ents, mid); }
      if ok { SearchableFirst(bs, dir, ents, mid); BlockDecides(bs, ents, mid, target); }
      if lost { LostDecides(bs, dir, ents, mid, target); }
      var load := LoadBlock(bs, image, fi, bs * mid, dir);
      if load == Eof { hi := mid; continue; }
      if load == Bad { return Invalid; }
      var first := BlockFirstName(load.bytes);
      if first.None? { return Invalid; }
      if Compare(first.value, target) <= 0 {
        lastBlk, lastIdx, lo := load.bytes, mid, mid + 1;
      } else {
        hi := mid;
      }
    }
    if lastIdx < 0 { return NotExist; }
    ghost var a, b := if written then Cut(bs, ents, 0, lo - 1) else 0, if written then Cut(bs, ents, 0, lo) else 0;
    r := LookupBlock(lastBlk, target, ents, a, b);
    if ok { SearchableBlock(bs, dir, ents, lo - 1); CutMonotone(bs, ents, 0, lo - 1, lo); Widen(r, ents, a, b, target); }
    if lost { LostBlock(bs, dir, ents, target); }
  }

  /** The target is the last name of the first block, and that block is 64 KiB long. */
  ghost predicate LastOfFirst(bs: nat, dir: seq<byte>, ents: seq<Entry>, target: seq<byte>) {
    !Searchable(bs, dir) && 0 < Blocks(bs, ents, 0) && 0 < Cut(bs, ents, 0, 1)
    && target == ents[Cut(bs, ents, 0, 1) - 1].name
  }

  /** A directory with a 64 KiB block has such a name, and it is listed: so every name is
      answered for if and only if the directory has no such block. */
  lemma {:induction false} SomeNameLost(bs: nat, dir: seq<byte>, ents: seq<Entry>) returns (e: Entry)
    requires Directory(bs, dir, ents) && !Searchable(bs, dir)
    ensures e in ents && LastOfFirst(bs, dir, ents, e.name)
  {
    hide Fit, Sorted, DirBytes, BlockEnd;
    DirSize(bs, ents, 0);
    assert |DirBytes(bs, ents, 0)| > 0;
    NotEmpty(bs, ents);
    CutNext(bs, ents, 0, 0);
    e := ents[Cut(bs, ents, 0, 1) - 1];
  }

  /** None of the entries a up to b has the target's name. */
  ghost predicate AllDiffer(ents: seq<Entry>, a: nat, b: nat, target: seq<byte>)
    requires a <= b <= |ents|
  {
    forall i :: a <= i < b ==> ents[i].name != target
  }

  lemma {:induction false} FlatSize(bs: nat, image: seq<byte>, fi: FlatInode, content: seq<byte>)
    requires FlatAt(bs, image, fi, content)
    ensures fi.size == |content|
  {
  }

  lemma {:induction false} DirectoryFacts(bs: nat, dir: seq<byte>, ents: seq<Entry>)
    requires Directory(bs, dir, ents)
    ensures bs > 0 && CeilDiv(|dir|, bs) == Blocks(bs, ents, 0) && Sorted(ents)
    ensures Cut(bs, ents, 0, 0) == 0 && Cut(bs, ents, 0, Blocks(bs, ents, 0)) == |ents|
  {
    hide Sorted, Fit, NulFree, DirBytes, BlockEnd;
    DirSize(bs, ents, 0);
  }

  lemma {:induction false} FirstOf(bs: nat, dir: seq<byte>, ents: seq<Entry>, k: nat)
    requires Directory(bs, dir, ents) && k < Blocks(bs, ents, 0)
    ensures BlockFirstName(BlockAt(bs, dir, k)) ==
      if Cut(bs, ents, 0, k + 1) == Cut(bs, ents, 0, k) + 1 && |BlockAt(bs, dir, k)| == MAX_BLOCK then None
      else Some(ents[Cut(bs, ents, 0, k)].name)
  {
    hide Directory, Cut, Blocks, BlockFirstName, Reads, BlockAt;
    BlockReads(bs, dir, ents, k);
    FirstReads(BlockAt(bs, dir, k), ents, Cut(bs, ents, 0, k), Cut(bs, ents, 0, k + 1));
  }

  lemma {:induction false} ShortBlocks(bs: nat, dir: seq<byte>, k: nat)
    requires 0 < bs <= MAX_BLOCK
    ensures |BlockAt(bs, dir, k)| <= MAX_BLOCK
    ensures Searchable(bs, dir) ==> |BlockAt(bs, dir, k)| < MAX_BLOCK
    ensures !Searchable(bs, dir) ==> |BlockAt(bs, dir, 0)| == MAX_BLOCK
  {
    assert bs * 0 == 0;
  }

  lemma {:induction false} SearchableFirst(bs: nat, dir: seq<byte>, ents: seq<Entry>, k: nat)
    requires Directory(bs, dir, ents) && Searchable(bs, dir) && k < Blocks(bs, ents, 0)
    ensures BlockFirstName(BlockAt(bs, dir, k)) == Some(ents[Cut(bs, ents, 0, k)].name)
  {
    hide Cut, Blocks, BlockFirstName, BlockAt, Searchable, DirBytes, Sorted, Fit;
    FirstOf(bs, dir, ents, k);
    ShortBlocks(bs, dir, k);
  }

  lemma {:induction false} SearchableBlock(bs: nat, dir: seq<byte>, ents: seq<Entry>, k: nat)
    requires Directory(bs, dir, ents) && Searchable(bs, dir) && k < Blocks(bs, ents, 0)
    ensures var buf := BlockAt(bs, dir, k); Reads(buf, ents, Cut(bs, ents, 0, k), Cut(bs, ents, 0, k + 1)) && |buf| < MAX_BLOCK
  {
    hide Cut, Blocks, Reads, BlockAt, Searchable, DirBytes, Sorted, Fit;
    BlockReads(bs, dir, ents, k);
    ShortBlocks(bs, dir, k);
  }

  lemma {:induction false} LostFacts(bs: nat, dir: seq<byte>, ents: seq<Entry>, target: seq<byte>)
    requires Directory(bs, dir, ents) && LastOfFirst(bs, dir, ents, target)
    ensures 0 < Blocks(bs, ents, 0)
  {
  }

  /** In the search for a lost name, later blocks start beyond it, the first at or before. */
  lemma {:induction false} LostDecides(bs: nat, dir: seq<byte>, ents: seq<Entry>, k: nat, target: seq<byte>)
    requires Directory(bs, dir, ents) && LastOfFirst(bs, dir, ents, target) && k < Blocks(bs, ents, 0)
    ensures Compare(ents[Cut(bs, ents, 0, k)].name, target) <= 0 <==> k == 0
  {
    hide Less, Blocks, DirBytes, Fit, Searchable, BlockEnd;
    var a, last := Cut(bs, ents, 0, k), Cut(bs, ents, 0, 1) - 1;
    if k > 0 {
      CutMonotone(bs, ents, 0, 1, k);
      LessIsTotal(ents[last].name, ents[a].name);
    } else if last > 0 {
      LessIsTotal(ents[0].name, ents[last].name);
    }
  }

  lemma {:induction false} LostBlock(bs: nat, dir: seq<byte>, ents: seq<Entry>, target: seq<byte>)
    requires Directory(bs, dir, ents) && LastOfFirst(bs, dir, ents, target)
    ensures var buf := BlockAt(bs, dir, 0); Reads(buf, ents, 0, Cut(bs, ents, 0, 1)) && |buf| == MAX_BLOCK
    ensures target == ents[Cut(bs, ents, 0, 1) - 1].name
  {
    hide Blocks, Reads, BlockAt, Searchable, DirBytes, Sorted, Fit, BlockEnd;
    BlockReads(bs, dir, ents, 0);
    ShortBlocks(bs, dir, 0);
  }

  lemma {:induction false} NotEmpty(bs: nat, ents: seq<Entry>)
    requires bs > 0 && |DirBytes(bs, ents, 0)| > 0
    ensures |ents| > 0
  {
  }

  lemma {:induction false} Widen(r: Result, ents: seq<Entry>, a: nat, b: nat, target: seq<byte>)
    requires a <= b <= |ents| && Answers(r, ents, a, b, target)
    requires forall i :: 0 <= i < a || b <= i < |ents| ==> ents[i].name != target
    ensures Answers(r, ents, 0, |ents|, target)
  {
    if r.Found? { assert Entry(target, r.nid, r.ftype) in ents[a..b]; }
  }

  /** Found, with this nid and type, if and only if the directory has that entry. */
  lemma {:induction false} AnswerIsExact(r: Result, ents: seq<Entry>, target: seq<byte>, nid: nat, ftype: byte)
    requires Sorted(ents) && Answers(r, ents, 0, |ents|, target)
    ensures r == Found(nid, ftype) <==> Entry(target, nid, ftype) in ents
    ensures r == NotExist <==> forall e <- ents :: e.name != target
  {
    hide Less;
    assert ents[0..|ents|] == ents;
    forall i, j | 0 <= i < j < |ents| ensures ents[i].name != ents[j].name { LessIsTotal(ents[i].name, ents[j].name); }
  }
}
