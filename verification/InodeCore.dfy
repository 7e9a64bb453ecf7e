/**
 The core of an inode, in its compact and its extended form: what a reader learns
 about a file before it looks at its data.
 */
module InodeCore {
  import opened Bytes
  import opened Spool
  import opened ZIndex
  import opened ZTrailing
  import opened Layout

  const XATTR_HEADER := 12
  const XATTR_ENTRY := 4

  /** What a core records; xattrs is the size of the attributes that follow it. */
  datatype Core = Core(layout: InodeLayout, xattrs: nat, mode: nat, nlink: nat, size: nat, data: nat, uid: nat, gid: nat,
                       mtime: nat, mtimeNs: nat)

  /** The time an image was built, which stands for the times of compact inodes. */
  datatype Stamp = Stamp(sec: nat, ns: nat)

  predicate XattrsOk(n: nat) { n == 0 || (n >= XATTR_HEADER && n % XATTR_ENTRY == 0 && n < 4 * 65535 + XATTR_HEADER) }

  /** All fields fit the extended form. */
  predicate Recordable(c: Core) {
    XattrsOk(c.xattrs) && c.mode < 0x1_0000 && c.nlink < 0x1_0000_0000 && c.size < 0x8000_0000_0000_0000 && c.data < 0x1_0000_0000
    && c.uid < 0x1_0000_0000 && c.gid < 0x1_0000_0000 && c.mtime < 0x1_0000_0000_0000_0000 && c.mtimeNs < 0x1_0000_0000
  }

  /** And all but the time fit the compact form. */
  predicate Small(c: Core) { c.uid <= 0xFFFF && c.gid <= 0xFFFF && c.nlink <= 0xFFFF && c.size <= 0xFFFF_FFFF }

  /** Whether an inode is written in compact form: when it fits, and its time is the
      image's or is given up. */
  predicate Compacts(c: Core, built: Stamp, forced: bool) {
    Small(c) && (forced || (c.mtime == built.sec && c.mtimeNs == 0))
  }

  function LayoutCode(l: InodeLayout): (n: nat)
    ensures n < 5
  {
    match l
    case FlatPlain => 0
    case CompressedFull => 1
    case FlatInline => 2
    case CompressedCompact => 3
    case ChunkBased => 4
  }

  function LayoutOf(n: nat): (l: Option<InodeLayout>) {
    match n
    case 0 => Some(FlatPlain)
    case 1 => Some(CompressedFull)
    case 2 => Some(FlatInline)
    case 3 => Some(CompressedCompact)
    case 4 => Some(ChunkBased)
    case _ => None
  }

  function XattrCount(n: nat): (r: nat)
    requires XattrsOk(n)
    ensures r < 0x1_0000
  {
    if n == 0 then 0 else (n - XATTR_HEADER) / XATTR_ENTRY + 1
  }

  function XattrSize(count: nat): (n: nat) { if count == 0 then 0 else XATTR_ENTRY * (count - 1) + XATTR_HEADER }

  /** What both forms begin with. */
  function PutCommon(c: Core, compact: bool): (r: seq<byte>)
    requires Recordable(c)
    ensures |r| == 6
  {
    Put16(2 * LayoutCode(c.layout) + if compact then 0 else 1) + Put16(XattrCount(c.xattrs)) + Put16(c.mode)
  }

  function PutCompact(c: Core): (r: seq<byte>)
    requires Recordable(c) && Small(c)
    ensures |r| == INODE_COMPACT
  {
    PutCommon(c, true) + Put16(c.nlink) + Put32(c.size) + Zeros(4) + Put32(c.data) + Zeros(4) + Put16(c.uid) + Put16(c.gid) + Zeros(4)
  }

  function PutExtended(c: Core): (r: seq<byte>)
    requires Recordable(c)
    ensures |r| == INODE_EXTENDED
  {
    PutCommon(c, false) + Zeros(2) + Put64(c.size) + Put32(c.data) + Zeros(4) + Put32(c.uid) + Put32(c.gid)
    + Put64(c.mtime) + Put32(c.mtimeNs) + Put32(c.nlink) + Zeros(16)
  }

  function PutCore(c: Core, compact: bool): (r: seq<byte>)
    requires Recordable(c) && (compact ==> Small(c))
    ensures |r| == if compact then INODE_COMPACT else INODE_EXTENDED
  {
    if compact then PutCompact(c) else PutExtended(c)
  }

  function Get64At(b: seq<byte>, at: nat): (v: nat)
    requires at + 8 <= |b|
  {
    Get32(b, at) + 0x1_0000_0000 * Get32(b, at + 4)
  }

  /** What a reader makes of the bytes at an inode: its core, and whether that is
      compact; None for a layout it does not know. */
  function GetCore(b: seq<byte>, built: Stamp): (r: Option<(Core, bool)>)
    requires |b| >= INODE_EXTENDED
  {
    var format, xattrs := Get16(b, 0), XattrSize(Get16(b, 2));
    var layout := LayoutOf(format / 2 % 8);
    if layout.None? then None
    else if format % 2 == 0 then
      Some((Core(layout.value, xattrs, Get16(b, 4), Get16(b, 6), Get32(b, 8), Get32(b, 16), Get16(b, 24), Get16(b, 26), built.sec, built.ns), true))
    else
      Some((Core(layout.value, xattrs, Get16(b, 4), Get32(b, 44), Get64At(b, 8), Get32(b, 16), Get32(b, 24), Get32(b, 28), Get64At(b, 32), Get32(b, 40)), false))
  }

  // ---- round trips ---------------------------------------------------------------------

  /** A field stands where the bytes before it end. */
  lemma {:induction false} Field16(b: seq<byte>, before: seq<byte>, v: nat, after: seq<byte>)
    requires v < 0x1_0000 && b == before + Put16(v) + after
    ensures Get16(b, |before|) == v
  {
    Get16Put16(v, before, after);
  }

  lemma {:induction false} Field32(b: seq<byte>, before: seq<byte>, v: nat, after: seq<byte>)
    requires v < 0x1_0000_0000 && b == before + Put32(v) + after
    ensures Get32(b, |before|) == v
  {
    Get32Put32(v, before, after);
  }

  lemma {:induction false} Field64(b: seq<byte>, before: seq<byte>, v: nat, after: seq<byte>)
    requires v < 0x1_0000_0000_0000_0000 && b == before + Put64(v) + after
    ensures Get64At(b, |before|) == v
  {
    hide Put32, Get32;
    var lo, hi := Put32(v % 0x1_0000_0000), Put32(v / 0x1_0000_0000);
    assert b == before + lo + (hi + after);
    assert b == (before + lo) + hi + after;
    Field32(b, before, v % 0x1_0000_0000, hi + after);
    Field32(b, before + lo, v / 0x1_0000_0000, after);
  }

  lemma {:induction false} CommonReads(b: seq<byte>, c: Core, compact: bool, after: seq<byte>)
    requires Recordable(c) && b == PutCommon(c, compact) + after
    ensures LayoutOf(Get16(b, 0) / 2 % 8) == Some(c.layout) && (Get16(b, 0) % 2 == 0 <==> compact)
    ensures XattrSize(Get16(b, 2)) == c.xattrs && Get16(b, 4) == c.mode
  {
    hide Put16, Get16;
    var format := 2 * LayoutCode(c.layout) + if compact then 0 else 1;
    var f, x, m := Put16(format), Put16(XattrCount(c.xattrs)), Put16(c.mode);
    assert b == [] + f + (x + m + after);
    Field16(b, [], format, x + m + after);
    assert b == f + x + (m + after);
    Field16(b, f, XattrCount(c.xattrs), m + after);
    assert b == (f + x) + m + after;
    Field16(b, f + x, c.mode, after);
    FormatReads(c.layout, compact);
    CountReads(c.xattrs);
  }

  lemma {:induction false} FormatReads(l: InodeLayout, compact: bool)
    ensures var format := 2 * LayoutCode(l) + if compact then 0 else 1;
      LayoutOf(format / 2 % 8) == Some(l) && (format % 2 == 0 <==> compact)
  {
  }

  lemma {:induction false} CountReads(n: nat)
    requires XattrsOk(n)
    ensures XattrSize(XattrCount(n)) == n
  {
  }

  lemma {:induction false} CompactReads(b: seq<byte>, c: Core, rest: seq<byte>)
    requires Recordable(c) && Small(c) && b == PutCompact(c) + rest
    ensures Get16(b, 6) == c.nlink && Get32(b, 8) == c.size && Get32(b, 16) == c.data && Get16(b, 24) == c.uid && Get16(b, 26) == c.gid
    ensures exists after: seq<byte> :: b == PutCommon(c, true) + after
  {
    hide Put16, Get16, Put32, Get32, PutCommon;
    var f, n, s, z, d := PutCommon(c, true), Put16(c.nlink), Put32(c.size), Zeros(4), Put32(c.data);
    var u, g := Put16(c.uid), Put16(c.gid);
    var all := n + s + z + d + z + u + g + z + rest;
    assert b == f + all;
    assert b == f + n + (s + z + d + z + u + g + z + rest);
    Field16(b, f, c.nlink, s + z + d + z + u + g + z + rest);
    assert b == (f + n) + s + (z + d + z + u + g + z + rest);
    Field32(b, f + n, c.size, z + d + z + u + g + z + rest);
    assert b == (f + n + s + z) + d + (z + u + g + z + rest);
    Field32(b, f + n + s + z, c.data, z + u + g + z + rest);
    assert b == (f + n + s + z + d + z) + u + (g + z + rest);
    Field16(b, f + n + s + z + d + z, c.uid, g + z + rest);
    assert b == (f + n + s + z + d + z + u) + g + (z + rest);
    Field16(b, f + n + s + z + d + z + u, c.gid, z + rest);
  }

  lemma {:induction false} ExtendedReads(b: seq<byte>, c: Core, rest: seq<byte>)
    requires Recordable(c) && b == PutExtended(c) + rest
    ensures Get64At(b, 8) == c.size && Get32(b, 16) == c.data && Get32(b, 24) == c.uid && Get32(b, 28) == c.gid
    ensures Get64At(b, 32) == c.mtime && Get32(b, 40) == c.mtimeNs && Get32(b, 44) == c.nlink
    ensures exists after: seq<byte> :: b == PutCommon(c, false) + after
  {
    hide Put64, Get64At, Put32, Get32, PutCommon;
    var f, z2, s, d, z := PutCommon(c, false), Zeros(2), Put64(c.size), Put32(c.data), Zeros(4);
    var u, g, t, ns, n, z16 := Put32(c.uid), Put32(c.gid), Put64(c.mtime), Put32(c.mtimeNs), Put32(c.nlink), Zeros(16);
    var front, back := f + z2 + s + d + z, u + g + t + ns + n + z16 + rest;
    assert b == front + back;
    ExtendedFront(b, c, f, back);
    ExtendedBack(b, c, front, rest);
    assert b == f + (z2 + s + d + z + back);
  }

  lemma {:induction false} ExtendedFront(b: seq<byte>, c: Core, f: seq<byte>, back: seq<byte>)
    requires Recordable(c) && |f| == 6 && b == f + Zeros(2) + Put64(c.size) + Put32(c.data) + Zeros(4) + back
    ensures |b| >= 24 && Get64At(b, 8) == c.size && Get32(b, 16) == c.data
  {
    hide Put64, Get64At, Put32, Get32;
    var z2, s, d, z := Zeros(2), Put64(c.size), Put32(c.data), Zeros(4);
    assert b == (f + z2) + s + (d + z + back);
    Field64(b, f + z2, c.size, d + z + back);
    assert b == (f + z2 + s) + d + (z + back);
    Field32(b, f + z2 + s, c.data, z + back);
  }

  lemma {:induction false} ExtendedBack(b: seq<byte>, c: Core, front: seq<byte>, rest: seq<byte>)
    requires Recordable(c) && |front| == 24
    requires b == front + (Put32(c.uid) + Put32(c.gid) + Put64(c.mtime) + Put32(c.mtimeNs) + Put32(c.nlink) + Zeros(16) + rest)
    ensures |b| >= 64 && Get32(b, 24) == c.uid && Get32(b, 28) == c.gid
    ensures Get64At(b, 32) == c.mtime && Get32(b, 40) == c.mtimeNs && Get32(b, 44) == c.nlink
  {
    hide Put64, Get64At, Put32, Get32;
    var u, g, t, ns, n, z16 := Put32(c.uid), Put32(c.gid), Put64(c.mtime), Put32(c.mtimeNs), Put32(c.nlink), Zeros(16);
    assert b == front + u + (g + t + ns + n + z16 + rest);
    Field32(b, front, c.uid, g + t + ns + n + z16 + rest);
    assert b == (front + u) + g + (t + ns + n + z16 + rest);
    Field32(b, front + u, c.gid, t + ns + n + z16 + rest);
    assert b == (front + u + g) + t + (ns + n + z16 + rest);
    Field64(b, front + u + g, c.mtime, ns + n + z16 + rest);
    assert b == (front + u + g + t) + ns + (n + z16 + rest);
    Field32(b, front + u + g + t, c.mtimeNs, n + z16 + rest);
    assert b == (front + u + g + t + ns) + n + (z16 + rest);
    Field32(b, front + u + g + t + ns, c.nlink, z16 + rest);
  }

  /** Every field of a core reads back, whatever follows it; of a compact one the time
      is the image's. */
  lemma {:induction false} CoreRoundTrip(c: Core, compact: bool, rest: seq<byte>, built: Stamp)
    requires Recordable(c) && (compact ==> Small(c)) && |PutCore(c, compact) + rest| >= INODE_EXTENDED
    ensures GetCore(PutCore(c, compact) + rest, built)
         == Some((if compact then c.(mtime := built.sec, mtimeNs := built.ns) else c, compact))
  {
    hide Put16, Get16, Put32, Get32, PutCommon, Get64At, PutCompact, PutExtended;
    var b := PutCore(c, compact) + rest;
    if compact { CompactReads(b, c, rest); } else { ExtendedReads(b, c, rest); }
    var after: seq<byte> :| b == PutCommon(c, compact) + after;
    CommonReads(b, c, compact, after);
  }

  /** Of the cores whose form the writer chooses without giving up times, all read back
      whole if and only if the image's build time has no fraction of a second. */
  lemma {:induction false} TimesKept(c: Core, rest: seq<byte>, built: Stamp)
    requires Recordable(c) && |rest| >= INODE_COMPACT
    ensures var compact := Compacts(c, built, false);
      GetCore(PutCore(c, compact) + rest, built) == Some((c, compact)) <==> !compact || built.ns == 0
  {
    hide PutCompact, PutExtended, GetCore;
    CoreRoundTrip(c, Compacts(c, built, false), rest, built);
  }
}
