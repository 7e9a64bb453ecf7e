/**
 Compacted-2B indexes.  Clusters are packed two or sixteen at a time: a short
 bit field each, then one base address.  The address of a head is not stored; a
 reader rebuilds it from the base and the records before it in the compact pack.
 */
module CompactIndex {
  import opened Bytes
  import opened FileMap
  import opened ZIndex
  import opened Bits

  /** One bit field: a cluster type and a 12-bit offset, delta or block count. */
  datatype Record = Record(typ: nat, lo: nat)

  predicate PackKind(vcnt: nat) { vcnt == 2 || vcnt == 16 }

  function PackBytes(vcnt: nat): (n: nat)
    requires PackKind(vcnt)
  {
    if vcnt == 2 then 8 else 32
  }

  function FieldBits(vcnt: nat): (n: nat)
    requires PackKind(vcnt)
    ensures n == 14 || n == 16
  {
    (PackBytes(vcnt) * 8 - 32) / vcnt
  }

  // ---- reading a pack ----------------------------------------------------------------

  function RecordAt(pack: seq<byte>, vcnt: nat, i: nat): (r: Record)
    requires PackKind(vcnt) && |pack| == PackBytes(vcnt) && i < vcnt
  {
    var value := GetBits(pack, FieldBits(vcnt) * i, FieldBits(vcnt));
    Record(value / 4096 % 4, value % 4096)
  }

  function RecordsOf(pack: seq<byte>, vcnt: nat): (r: seq<Record>)
    requires PackKind(vcnt) && |pack| == PackBytes(vcnt)
    ensures |r| == vcnt
  {
    seq(vcnt, i requires 0 <= i < vcnt => RecordAt(pack, vcnt, i))
  }

  function BaseOf(pack: seq<byte>): (b: nat)
    requires |pack| >= 4
  {
    Get32(pack, |pack| - 4)
  }

  /** Physical blocks between the base and the head at j: a head alone counts one
      block, a head followed by a count record counts that many. */
  function BlocksBefore(records: seq<Record>, j: int): (r: Option<nat>)
    requires j <= |records|
    decreases j
  {
    if j <= 0 then Some(0)
    else
      var prev := records[j - 1];
      if prev.typ != NONHEAD then Plus(1, BlocksBefore(records, j - 1))
      else if HasCount(prev.lo) then Plus(WithoutCount(prev.lo), BlocksBefore(records, j - 2))
      else if prev.lo <= 1 then None
      else BlocksBefore(records, j - 1 - (prev.lo - 2))
  }

  function Plus(n: nat, r: Option<nat>): (s: Option<nat>) {
    match r case None => None case Some(v) => Some(n + v)
  }

  /** Clears bit 11. */
  function WithoutCount(d: nat): (n: nat) { if HasCount(d) then d - CBLKCNT else d }

  function NonHeadDelta(records: seq<Record>, i: nat): (d: nat)
    requires i < |records| && |records| >= 2
  {
    if HasCount(records[i].lo) || i + 1 < |records| then records[i].lo
    else
      var prev := records[i - 1];
      if prev.typ != NONHEAD then 1 else if HasCount(prev.lo) then 2 else prev.lo + 1
  }

  function CompactEntry(records: seq<Record>, base: nat, i: nat): (r: Option<IndexEntry>)
    requires i < |records| && |records| >= 2
  {
    var typ, lo := records[i].typ, records[i].lo;
    if typ == NONHEAD then Some(IndexEntry(typ, 0, NonHeadDelta(records, i)))
    else
      match BlocksBefore(records, i)
      case None => None
      case Some(n) => Some(IndexEntry(typ, lo, (base + n) % 0x1_0000_0000))
  }

  // ---- which pack holds a cluster ------------------------------------------------------

  /** Leading two-entry packs align the sixteen-entry ones to 32 bytes. */
  function Initial(idxStart: nat, n: nat): (r: nat)
    ensures r <= n
  {
    var initial := (32 - idxStart % 32) / 4 % 8;
    if initial > n then 0 else initial
  }

  function Middle(initial: nat, n: nat): (r: nat)
    requires initial <= n
    ensures initial + r <= n && r % 16 == 0 && n - initial - r < 16
  {
    (n - initial) / 16 * 16
  }

  /** The compact pack of a cluster: its kind, first cluster, and byte offset in the array. */
  datatype Pack = Pack(vcnt: nat, first: nat, offset: nat)

  function PackOf(idxStart: nat, n: nat, lcn: nat): (p: Pack)
    requires lcn < n
    ensures PackKind(p.vcnt) && p.first <= lcn < p.first + p.vcnt
  {
    var initial := Initial(idxStart, n);
    var middle := Middle(initial, n);
    if lcn < initial then Pack(2, lcn / 2 * 2, lcn / 2 * 8)
    else if lcn < initial + middle then
      var q := (lcn - initial) / 16;
      Pack(16, initial + q * 16, initial * 4 + q * 32)
    else
      var q := (lcn - initial - middle) / 2;
      Pack(2, initial + middle + q * 2, initial * 4 + middle * 2 + q * 8)
  }

  function CompactIndexAt(image: seq<byte>, idxStart: nat, n: nat, lcn: nat): (r: Option<IndexEntry>)
    requires lcn < n
  {
    var p := PackOf(idxStart, n, lcn);
    var pack := Slice(image, idxStart + p.offset, PackBytes(p.vcnt));
    if |pack| < PackBytes(p.vcnt) then None
    else CompactEntry(RecordsOf(pack, p.vcnt), BaseOf(pack), lcn - p.first)
  }

  lemma {:induction false} BlocksStep(records: seq<Record>, j: int)
    requires j <= |records|
    ensures j <= 0 ==> BlocksBefore(records, j) == Some(0)
    ensures j > 0 && records[j - 1].typ != NONHEAD ==>
      BlocksBefore(records, j) == Plus(1, BlocksBefore(records, j - 1))
    ensures j > 0 && records[j - 1].typ == NONHEAD && HasCount(records[j - 1].lo) ==>
      BlocksBefore(records, j) == Plus(WithoutCount(records[j - 1].lo), BlocksBefore(records, j - 2))
    ensures j > 0 && records[j - 1].typ == NONHEAD && !HasCount(records[j - 1].lo) ==>
      BlocksBefore(records, j) == (if records[j - 1].lo <= 1 then None else BlocksBefore(records, j + 1 - records[j - 1].lo))
  {
  }

  /** The reader's walk back from a head to the start of its pack. */
  method CountBlocks(records: seq<Record>, i: nat) returns (r: Option<nat>)
    requires i < |records|
    ensures r == BlocksBefore(records, i)
  {
    hide HasCount, WithoutCount, BlocksBefore;
    ghost var whole := BlocksBefore(records, i);
    var nblk := 0;
    var j: int := i;
    while j > 0
      invariant j <= i && nblk >= 0
      invariant whole == Plus(nblk, BlocksBefore(records, j))
      decreases j
    {
      BlocksStep(records, j);
      j := j - 1;
      var prev := records[j];
      if prev.typ != NONHEAD {
        nblk := nblk + 1;
      } else if HasCount(prev.lo) {
        nblk := nblk + WithoutCount(prev.lo);
        j := j - 1;
      } else {
        if prev.lo <= 1 { return None; }
        j := j - (prev.lo - 2);
      }
    }
    BlocksStep(records, j);
    r := Some(nblk);
  }

  /** Expands one compacted index into the shape of a full one. */
  method ReadCompactIndex(image: seq<byte>, idxStart: nat, n: nat, lcn: nat) returns (r: Option<IndexEntry>)
    requires lcn < n
    ensures r == CompactIndexAt(image, idxStart, n, lcn)
  {
    hide RecordAt, PackOf;
    var p := PackOf(idxStart, n, lcn);
    var pack := Slice(image, idxStart + p.offset, PackBytes(p.vcnt));
    if |pack| < PackBytes(p.vcnt) { return None; }
    var vcnt, i := p.vcnt, lcn - p.first;
    var record := RecordAt(pack, vcnt, i);
    if record.typ == NONHEAD {
      if HasCount(record.lo) { return Some(IndexEntry(NONHEAD, 0, record.lo)); }
      var d0 := record.lo;
      if i + 1 == vcnt {
        var prev := RecordAt(pack, vcnt, i - 1);
        d0 := if prev.typ != NONHEAD then 1 else if HasCount(prev.lo) then 2 else prev.lo + 1;
      }
      return Some(IndexEntry(NONHEAD, 0, d0));
    }
    var nblk := CountBlocks(RecordsOf(pack, vcnt), i);
    if nblk.None? { return None; }
    r := Some(IndexEntry(record.typ, record.lo, (BaseOf(pack) + nblk.value) % 0x1_0000_0000));
  }
}
