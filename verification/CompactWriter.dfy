/**
 Writing compacted-2B indexes, and the proof that reading them back yields a
 correct entry for every cluster of a physically contiguous file.
 */
module CompactWriter {
  import opened Bytes
  import opened Arith
  import opened Spool
  import opened FileMap
  import opened ZIndex
  import opened Bits
  import opened CompactIndex

  const NO_ENTRY := IndexEntry(PLAIN, 0, 0)

  // ---- what a pack records -------------------------------------------------------------

  function EntryOrPad(entries: seq<IndexEntry>, n: nat): (e: IndexEntry) {
    if n < |entries| then entries[n] else NO_ENTRY
  }

  /** The last record of a pack tells the way forward instead of back. */
  function RecordFor(e: IndexEntry, last: bool): (r: Record) {
    if e.typ == NONHEAD then
      var d0 := Delta0(e);
      Record(NONHEAD, if !HasCount(d0) && last then Min(e.u / 65536, CBLKCNT - 1) else d0)
    else Record(e.typ, e.clusterofs)
  }

  function RecordsFor(entries: seq<IndexEntry>, first: nat, vcnt: nat): (r: seq<Record>)
    ensures |r| == vcnt
  {
    seq(vcnt, i requires 0 <= i < vcnt => RecordFor(EntryOrPad(entries, first + i), i + 1 == vcnt))
  }

  lemma {:induction false} RecordsForAt(entries: seq<IndexEntry>, first: nat, vcnt: nat, i: nat)
    requires i < vcnt
    ensures RecordsFor(entries, first, vcnt)[i] == RecordFor(EntryOrPad(entries, first + i), i + 1 == vcnt)
  {
  }

  /** The writer's running address: that of the latest head while its size is still
      unknown (dummyHead), otherwise that of the next one. */
  datatype Cursor = Cursor(blkaddr: nat, dummyHead: bool)

  function Advance(c: Cursor, e: IndexEntry): (r: Cursor) {
    if e.typ == NONHEAD then
      if HasCount(Delta0(e)) then Cursor(c.blkaddr + WithoutCount(Delta0(e)), false) else c
    else Cursor(if c.dummyHead then c.blkaddr + 1 else c.blkaddr, true)
  }

  /** The cursor after n more entries from first. */
  function AdvanceBy(c: Cursor, entries: seq<IndexEntry>, first: nat, n: nat): (r: Cursor) {
    if n == 0 then c else Advance(AdvanceBy(c, entries, first, n - 1), EntryOrPad(entries, first + n - 1))
  }

  /** The base a pack ends up with: its first head moves it past a one-block head. */
  function BaseBy(c: Cursor, entries: seq<IndexEntry>, first: nat, n: nat): (r: (nat, bool)) {
    if n == 0 then (c.blkaddr, true)
    else
      var (base, open) := BaseBy(c, entries, first, n - 1);
      if EntryOrPad(entries, first + n - 1).typ == NONHEAD then (base, open)
      else
        var before := AdvanceBy(c, entries, first, n - 1);
        (if before.dummyHead && open then before.blkaddr + 1 else base, false)
  }

  ghost predicate PackHolds(pack: seq<byte>, vcnt: nat, records: seq<Record>, base: nat) {
    PackKind(vcnt) && |pack| == PackBytes(vcnt) && RecordsOf(pack, vcnt) == records && BaseOf(pack) == base
  }

  predicate Packable(e: IndexEntry) { e.typ < 4 && e.clusterofs < 4096 && (e.typ == NONHEAD ==> Delta0(e) < 4096) }

  // ---- building a pack -------------------------------------------------------------------

  function ValueFor(r: Record): (v: nat) { r.typ * 4096 + r.lo }

  /** The first n fields of bits hold records; the rest is clear. */
  ghost predicate Filled(bits: seq<bool>, width: nat, records: seq<Record>, n: nat)
    requires n <= |records|
  {
    width * n <= |bits|
    && (forall i :: 0 <= i < n ==> FieldIs(bits, width, i, records[i]))
    && (forall p :: 0 <= p < |bits| && width * n <= p ==> !bits[p])
  }

  ghost predicate FieldIs(bits: seq<bool>, width: nat, i: nat, r: Record) {
    width * i + width <= |bits| && bits[width * i..width * i + width] == BitsOf(ValueFor(r), width)
  }

  lemma {:induction false} FieldBefore(width: nat, i: nat, n: nat)
    requires i < n
    ensures width * i + width <= width * n
  {
    MulMonotone(width, i + 1, n);
  }

  lemma {:induction false} FilledStep(before: seq<bool>, after: seq<bool>, width: nat, records: seq<Record>, n: nat)
    requires n < |records| && Filled(before, width, records, n) && |after| == |before|
    requires width * n + width <= |before|
    requires forall p :: 0 <= p < |after| ==>
      after[p] == (before[p] || (width * n <= p < width * n + width && BitsOf(ValueFor(records[n]), width)[p - width * n]))
    ensures Filled(after, width, records, n + 1)
  {
    hide BitsOf;
    MulSplit(width, n, 1);
    forall i | 0 <= i < n + 1 ensures FieldIs(after, width, i, records[i]) {
      if i < n {
        FieldBefore(width, i, n);
        assert FieldIs(before, width, i, records[i]);
        assert after[width * i..width * i + width] == before[width * i..width * i + width];
      } else {
        assert after[width * n..width * n + width] == BitsOf(ValueFor(records[n]), width);
      }
    }
  }

  lemma {:induction false} Pow2At14()
    ensures Pow2(14) == 16384 && Pow2(16) == 65536
  {
    Pow2Of8();
    assert Pow2(10) == 4 * Pow2(8);
    assert Pow2(12) == 4 * Pow2(10);
    assert Pow2(14) == 4 * Pow2(12);
    assert Pow2(16) == 4 * Pow2(14);
  }

  lemma {:induction false} FieldWindow(vcnt: nat, i: nat)
    requires PackKind(vcnt) && i < vcnt
    ensures FieldBits(vcnt) * i % 8 + FieldBits(vcnt) <= 32
    ensures FieldBits(vcnt) * i + FieldBits(vcnt) <= 8 * (PackBytes(vcnt) - 4)
  {
  }

  lemma {:induction false} ValueUnpacks(r: Record)
    requires r.typ < 4 && r.lo < 4096
    ensures ValueFor(r) < 16384 && Record(ValueFor(r) / 4096 % 4, ValueFor(r) % 4096) == r
  {
  }

  /** A filled field is read back as its record. */
  lemma {:induction false} FieldReads(pack: seq<byte>, vcnt: nat, i: nat, r: Record)
    requires PackKind(vcnt) && |pack| == PackBytes(vcnt) && i < vcnt && r.typ < 4 && r.lo < 4096
    requires FieldIs(ByteBits(pack), FieldBits(vcnt), i, r)
    ensures RecordAt(pack, vcnt, i) == r
  {
    hide GetBits, BitsOf, ByteBits, ValueFor, Pow2, ValueOf;
    var w := FieldBits(vcnt);
    FieldWindow(vcnt, i);
    GetBitsExact(pack, w * i, w);
    Pow2At14();
    ValueUnpacks(r);
    ValueOfBitsOf(ValueFor(r), w);
    assert GetBits(pack, w * i, w) == ValueFor(r);
  }

  lemma {:induction false} ZeroBits(b: seq<byte>)
    requires forall i :: 0 <= i < |b| ==> b[i] == 0
    ensures forall p :: 0 <= p < |ByteBits(b)| ==> !ByteBits(b)[p]
  {
    forall p | 0 <= p < |ByteBits(b)| ensures !ByteBits(b)[p] {
      ByteBitsAt(b, p);
      ZeroBit(8, p % 8);
    }
  }

  lemma {:induction false} ZeroBit(width: nat, t: nat)
    requires t < width
    ensures !BitsOf(0, width)[t]
  {
    if t > 0 { ZeroBit(width - 1, t - 1); }
  }

  /** Overwriting the base at the end leaves the fields alone. */
  lemma {:induction false} BaseKeepsFields(before: seq<byte>, after: seq<byte>, vcnt: nat, records: seq<Record>)
    requires PackKind(vcnt) && |before| == |after| == PackBytes(vcnt) && |records| == vcnt
    requires Filled(ByteBits(before), FieldBits(vcnt), records, vcnt)
    requires forall j :: 0 <= j < |before| - 4 ==> after[j] == before[j]
    ensures forall i :: 0 <= i < vcnt ==> FieldIs(ByteBits(after), FieldBits(vcnt), i, records[i])
  {
    hide BitsOf, ByteBits;
    var w := FieldBits(vcnt);
    forall i | 0 <= i < vcnt ensures FieldIs(ByteBits(after), w, i, records[i]) {
      assert FieldIs(ByteBits(before), w, i, records[i]);
      FieldWindow(vcnt, i);
      var x, y := ByteBits(after)[w * i..w * i + w], ByteBits(before)[w * i..w * i + w];
      forall t | 0 <= t < w ensures x[t] == y[t] {
        ByteBitsAt(before, w * i + t);
        ByteBitsAt(after, w * i + t);
      }
      assert x == y;
    }
  }

  lemma {:induction false} PackReads(pack: seq<byte>, vcnt: nat, records: seq<Record>)
    requires PackKind(vcnt) && |pack| == PackBytes(vcnt) && |records| == vcnt
    requires forall r <- records :: r.typ < 4 && r.lo < 4096
    requires forall i :: 0 <= i < vcnt ==> FieldIs(ByteBits(pack), FieldBits(vcnt), i, records[i])
    ensures RecordsOf(pack, vcnt) == records
  {
    hide FieldIs, RecordAt;
    forall i | 0 <= i < vcnt ensures RecordAt(pack, vcnt, i) == records[i] {
      FieldReads(pack, vcnt, i, records[i]);
    }
  }

  lemma {:induction false} RecordsPackable(entries: seq<IndexEntry>, first: nat, vcnt: nat)
    requires forall e <- entries :: Packable(e)
    ensures forall r <- RecordsFor(entries, first, vcnt) :: r.typ < 4 && r.lo < 4096
  {
    var records := RecordsFor(entries, first, vcnt);
    forall i | 0 <= i < vcnt ensures records[i].typ < 4 && records[i].lo < 4096 {
      assert Packable(EntryOrPad(entries, first + i));
      assert records[i] == RecordFor(EntryOrPad(entries, first + i), i + 1 == vcnt);
    }
  }

  /** Sets one field per cluster. */
  method FillPack(entries: seq<IndexEntry>, first: nat, vcnt: nat, buf: array<byte>)
    requires PackKind(vcnt) && buf.Length == PackBytes(vcnt) && forall j :: 0 <= j < buf.Length ==> buf[j] == 0
    modifies buf
    ensures Filled(ByteBits(buf[..]), FieldBits(vcnt), RecordsFor(entries, first, vcnt), vcnt)
  {
    hide BitsOf, ByteBits, RecordFor;
    var w := FieldBits(vcnt);
    ghost var records := RecordsFor(entries, first, vcnt);
    ZeroBits(buf[..]);
    var i := 0;
    while i < vcnt
      invariant 0 <= i <= vcnt && Filled(ByteBits(buf[..]), w, records, i)
    {
      var r := RecordFor(EntryOrPad(entries, first + i), i + 1 == vcnt);
      FieldWindow(vcnt, i);
      ghost var before := ByteBits(buf[..]);
      PutCompactBits(buf, w * i, w, ValueFor(r));
      FilledStep(before, ByteBits(buf[..]), w, records, i);
      i := i + 1;
    }
  }

  /** Writes one pack and moves the cursor past it. */
  method WritePack(entries: seq<IndexEntry>, first: nat, vcnt: nat, c: Cursor) returns (pack: seq<byte>, next: Cursor)
    requires PackKind(vcnt) && forall e <- entries :: Packable(e)
    ensures next == AdvanceBy(c, entries, first, vcnt)
    ensures PackHolds(pack, vcnt, RecordsFor(entries, first, vcnt), BaseBy(c, entries, first, vcnt).0 % 0x1_0000_0000)
  {
    var base, updateBase, i := c.blkaddr, true, 0;
    next := c;
    while i < vcnt
      invariant 0 <= i <= vcnt && next == AdvanceBy(c, entries, first, i)
      invariant (base, updateBase) == BaseBy(c, entries, first, i)
    {
      var entry := EntryOrPad(entries, first + i);
      if entry.typ != NONHEAD {
        if next.dummyHead && updateBase { base := next.blkaddr + 1; }
        updateBase := false;
      }
      next := Advance(next, entry);
      i := i + 1;
    }
    pack := FinishPack(entries, first, vcnt, base % 0x1_0000_0000);
  }

  method FinishPack(entries: seq<IndexEntry>, first: nat, vcnt: nat, base: nat) returns (pack: seq<byte>)
    requires PackKind(vcnt) && base < 0x1_0000_0000 && forall e <- entries :: Packable(e)
    ensures PackHolds(pack, vcnt, RecordsFor(entries, first, vcnt), base)
  {
    hide ByteBits, BitsOf, RecordFor;
    var buf := new byte[PackBytes(vcnt)](_ => 0);
    FillPack(entries, first, vcnt, buf);
    ghost var filled := buf[..];
    pack := buf[..buf.Length - 4] + Put32(base);
    BaseKeepsFields(filled, pack, vcnt, RecordsFor(entries, first, vcnt));
    RecordsPackable(entries, first, vcnt);
    PackReads(pack, vcnt, RecordsFor(entries, first, vcnt));
    Get32Put32(base, buf[..buf.Length - 4], []);
    assert buf[..buf.Length - 4] + Put32(base) + [] == pack;
  }

  // ---- why it reads back -----------------------------------------------------------------

  /** Every extent starts where the previous one ends. */
  ghost predicate Contiguous(extents: seq<Extent>) {
    forall k :: 0 < k < |extents| ==> Follows(extents, k)
  }

  predicate Follows(extents: seq<Extent>, k: nat)
    requires 0 < k < |extents|
  {
    extents[k].blkOff == extents[k - 1].blkOff + extents[k - 1].blocks
  }

  ghost predicate Compactable(m: Mapping) {
    m.bs > 0 && |m.extents| > 0 && Contiguous(m.extents) && forall e <- m.extents :: Shaped(e)
  }

  /** The extent of cluster n and the position in it. */
  function Owner(extents: seq<Extent>, k: nat, n: nat): (r: (nat, nat))
    requires k <= |extents| && n < Start(extents, k)
    ensures r.0 < k && r.1 < extents[r.0].lclusters && n == Start(extents, r.0) + r.1
  {
    if n >= Start(extents, k - 1) then (k - 1, n - Start(extents, k - 1)) else Owner(extents, k - 1, n)
  }

  lemma {:induction false} OwnerOf(extents: seq<Extent>, k: nat, j: nat, i: nat)
    requires k <= |extents| && j < k && i < extents[j].lclusters
    ensures Start(extents, j) + i < Start(extents, k) && Owner(extents, k, Start(extents, j) + i) == (j, i)
    decreases k
  {
    StartMonotone(extents, j + 1, k);
    if j < k - 1 {
      StartMonotone(extents, j + 1, k - 1);
      OwnerOf(extents, k - 1, j, i);
    }
  }

  function OwnerIn(m: Mapping, n: nat): (r: (nat, nat))
    requires n < Start(m.extents, |m.extents|)
    ensures r.0 < |m.extents| && r.1 < m.extents[r.0].lclusters && n == Start(m.extents, r.0) + r.1
  {
    Owner(m.extents, |m.extents|, n)
  }

  /** The next cluster is the extent's next, or the first of the following extent. */
  lemma {:induction false} OwnerNext(m: Mapping, n: nat)
    requires Compactable(m) && n + 1 < Start(m.extents, |m.extents|)
    ensures var (k, i) := OwnerIn(m, n);
      if i + 1 < m.extents[k].lclusters then OwnerIn(m, n + 1) == (k, i + 1)
      else k + 1 < |m.extents| && OwnerIn(m, n + 1) == (k + 1, 0)
  {
    var (k, i) := OwnerIn(m, n);
    if i + 1 < m.extents[k].lclusters {
      OwnerOf(m.extents, |m.extents|, k, i + 1);
    } else {
      assert Start(m.extents, k + 1) == n + 1;
      if k + 1 < |m.extents| {
        assert Shaped(m.extents[k + 1]);
        OwnerOf(m.extents, |m.extents|, k + 1, 0);
      }
    }
  }

  predicate IsHead(m: Mapping, n: nat)
    requires n < Start(m.extents, |m.extents|)
  {
    var (k, i) := OwnerIn(m, n);
    m.extents[k].plain || i == 0
  }

  /** The address a head or plain cluster must read back to. */
  function Address(m: Mapping, n: nat): (a: nat)
    requires n < Start(m.extents, |m.extents|)
  {
    var (k, i) := OwnerIn(m, n);
    if m.extents[k].plain then m.extents[k].blkOff + i else m.extents[k].blkOff
  }

  /** Where the writer's cursor stands before cluster n. */
  function CursorAt(m: Mapping, n: nat): (c: Cursor)
    requires |m.extents| > 0 && n <= Start(m.extents, |m.extents|)
  {
    if n == 0 then Cursor(m.extents[0].blkOff, false)
    else
      var (k, i) := OwnerIn(m, n - 1);
      var e := m.extents[k];
      if e.plain then Cursor(e.blkOff + i, true)
      else if i == 0 then Cursor(e.blkOff, true)
      else Cursor(e.blkOff + e.blocks, false)
  }

  function NextAddress(c: Cursor): (a: nat) { if c.dummyHead then c.blkaddr + 1 else c.blkaddr }

  /** Contiguity makes the running address the true one at every head. */
  lemma {:induction false} CursorAtHead(m: Mapping, n: nat)
    requires Compactable(m) && n < Start(m.extents, |m.extents|) && IsHead(m, n)
    ensures NextAddress(CursorAt(m, n)) == Address(m, n)
    ensures n > 0 && !IsHead(m, n - 1) ==> !CursorAt(m, n).dummyHead
  {
    if n == 0 {
      assert Shaped(m.extents[0]);
      OwnerOf(m.extents, |m.extents|, 0, 0);
    } else {
      OwnerNext(m, n - 1);
      var (k, i) := OwnerIn(m, n - 1);
      assert Shaped(m.extents[k]);
      if k + 1 < |m.extents| { assert Follows(m.extents, k + 1); }
    }
  }

  lemma {:induction false} EntryAt(m: Mapping, entries: seq<IndexEntry>, n: nat)
    requires Compactable(m) && Lists(m, false, |m.extents|, entries) && n < |entries|
    ensures var (k, i) := OwnerIn(m, n); Shaped(m.extents[k]) && entries[n] == EntryFor(m, false, k, i)
  {
    var (k, i) := OwnerIn(m, n);
    assert InRange(m.extents, k, i, |entries|);
  }

  /** The delta of a non-head: the block count right after the head, then distances. */
  lemma {:induction false} DeltaOf(m: Mapping, k: nat, i: nat)
    requires Compactable(m) && k < |m.extents| && Shaped(m.extents[k]) && !m.extents[k].plain
    requires 0 < i < m.extents[k].lclusters
    ensures var e := EntryFor(m, false, k, i);
      e.typ == NONHEAD && e.u / 65536 == m.extents[k].lclusters - i
      && Delta0(e) == (if i == 1 then CBLKCNT + m.extents[k].blocks else Min(i, CBLKCNT - 1))
      && HasCount(Delta0(e)) == (i == 1)
  {
  }

  lemma {:induction false} NonHeadStep(m: Mapping, entries: seq<IndexEntry>, n: nat)
    requires Compactable(m) && Lists(m, false, |m.extents|, entries) && n < |entries| && !IsHead(m, n)
    ensures Advance(CursorAt(m, n), entries[n]) == CursorAt(m, n + 1)
  {
    hide HasCount, EntryFor, Delta0;
    var (k, i) := OwnerIn(m, n);
    EntryAt(m, entries, n);
    DeltaOf(m, k, i);
    OwnerOf(m.extents, |m.extents|, k, i - 1);
  }

  /** Writing the entry of cluster n moves the cursor from before n to after it. */
  lemma {:induction false} CursorStep(m: Mapping, entries: seq<IndexEntry>, n: nat)
    requires Compactable(m) && Lists(m, false, |m.extents|, entries) && n < |entries|
    ensures Advance(CursorAt(m, n), entries[n]) == CursorAt(m, n + 1)
  {
    if IsHead(m, n) {
      EntryAt(m, entries, n);
      CursorAtHead(m, n);
    } else {
      NonHeadStep(m, entries, n);
    }
  }

  lemma {:induction false} CursorSteps(m: Mapping, entries: seq<IndexEntry>, first: nat, n: nat)
    requires Compactable(m) && Lists(m, false, |m.extents|, entries) && first + n <= |entries|
    ensures AdvanceBy(CursorAt(m, first), entries, first, n) == CursorAt(m, first + n)
    decreases n
  {
    hide Advance, CursorAt, Lists;
    if n > 0 {
      CursorSteps(m, entries, first, n - 1);
      CursorStep(m, entries, first + n - 1);
    }
  }

  // ---- the base ----------------------------------------------------------------------------

  /** The base written for the compact pack that starts at first. */
  function TrueBase(m: Mapping, first: nat): (b: nat)
    requires |m.extents| > 0 && first < Start(m.extents, |m.extents|)
  {
    if IsHead(m, first) then Address(m, first) else CursorAt(m, first).blkaddr
  }

  /** A pack's base is settled by its first entry: no later head moves it. */
  lemma {:induction false} BaseSteps(m: Mapping, entries: seq<IndexEntry>, first: nat, n: nat)
    requires Compactable(m) && Lists(m, false, |m.extents|, entries) && first < |entries| && n >= 1
    ensures var b := BaseBy(CursorAt(m, first), entries, first, n);
      b.0 == TrueBase(m, first)
      && (b.1 ==> first + n <= |entries| && !IsHead(m, first + n - 1))
    decreases n
  {
    var c := CursorAt(m, first);
    hide Lists, Advance;
    if n == 1 {
      FirstBase(m, entries, first);
    } else {
      BaseSteps(m, entries, first, n - 1);
      var last := first + n - 1;
      if BaseBy(c, entries, first, n - 1).1 {
        CursorSteps(m, entries, first, n - 1);
        CursorAfterNonHead(m, last);
        if last < |entries| { EntryAt(m, entries, last); TypeTellsHead(m, entries, last); }
      }
    }
  }

  lemma {:induction false} TypeTellsHead(m: Mapping, entries: seq<IndexEntry>, n: nat)
    requires Compactable(m) && Lists(m, false, |m.extents|, entries) && n < |entries|
    ensures entries[n].typ == NONHEAD <==> !IsHead(m, n)
  {
    EntryAt(m, entries, n);
  }

  lemma {:induction false} CursorAfterNonHead(m: Mapping, n: nat)
    requires Compactable(m) && 0 < n <= Start(m.extents, |m.extents|) && !IsHead(m, n - 1)
    ensures !CursorAt(m, n).dummyHead
  {
  }

  lemma {:induction false} FirstBase(m: Mapping, entries: seq<IndexEntry>, first: nat)
    requires Compactable(m) && Lists(m, false, |m.extents|, entries) && first < |entries|
    ensures BaseBy(CursorAt(m, first), entries, first, 1) == (TrueBase(m, first), !IsHead(m, first))
  {
    var c := CursorAt(m, first);
    assert AdvanceBy(c, entries, first, 0) == c;
    assert BaseBy(c, entries, first, 0) == (c.blkaddr, true);
    TypeTellsHead(m, entries, first);
    if IsHead(m, first) { CursorAtHead(m, first); }
  }

  // ---- a head's address is rebuilt exactly ---------------------------------------------------

  /** r is the record of cluster n with the entry's own delta. */
  ghost predicate OwnRecord(m: Mapping, n: nat, r: Record)
    requires n < Start(m.extents, |m.extents|)
  {
    var (k, i) := OwnerIn(m, n);
    if IsHead(m, n) then r.typ != NONHEAD
    else
      r.typ == NONHEAD && HasCount(r.lo) == (i == 1)
      && r.lo == (if i == 1 then CBLKCNT + m.extents[k].blocks else Min(i, CBLKCNT - 1))
  }

  /** Records before the last of a pack carry the entry's own delta. */
  lemma {:induction false} RecordBeforeLast(m: Mapping, entries: seq<IndexEntry>, first: nat, vcnt: nat, x: nat)
    requires Compactable(m) && Lists(m, false, |m.extents|, entries) && x + 1 < vcnt && first + x < |entries|
    ensures OwnRecord(m, first + x, RecordsFor(entries, first, vcnt)[x])
  {
    EntryAt(m, entries, first + x);
    var (k, i) := OwnerIn(m, first + x);
    assert EntryOrPad(entries, first + x) == entries[first + x];
    RecordsForAt(entries, first, vcnt, x);
    if !IsHead(m, first + x) { DeltaOf(m, k, i); }
  }

  lemma {:induction false} HeadAfterHead(m: Mapping, n: nat)
    requires Compactable(m) && 0 < n < Start(m.extents, |m.extents|) && IsHead(m, n) && IsHead(m, n - 1)
    ensures Address(m, n) == Address(m, n - 1) + 1
  {
    OwnerNext(m, n - 1);
    var (k, i) := OwnerIn(m, n - 1);
    assert Shaped(m.extents[k]);
    if k + 1 < |m.extents| { assert Follows(m.extents, k + 1); }
  }

  /** A head that follows a compressed extent: where that extent ends, and its blocks. */
  lemma {:induction false} HeadAfterExtent(m: Mapping, n: nat)
    requires Compactable(m) && 0 < n < Start(m.extents, |m.extents|) && IsHead(m, n) && !IsHead(m, n - 1)
    ensures var (k, j) := OwnerIn(m, n - 1);
      j == m.extents[k].lclusters - 1 && 0 < j < n && Address(m, n) == m.extents[k].blkOff + m.extents[k].blocks
  {
    OwnerNext(m, n - 1);
    var (k, j) := OwnerIn(m, n - 1);
    if k + 1 < |m.extents| { assert Follows(m.extents, k + 1); }
  }

  /** Every delta in an extent's tail leads the walk to just after its count record. */
  lemma {:induction false} WalkToCount(m: Mapping, entries: seq<IndexEntry>, first: nat, vcnt: nat, i: nat)
    requires Compactable(m) && Lists(m, false, |m.extents|, entries) && 0 < i < vcnt <= 16 && first + i <= |entries|
    requires !IsHead(m, first + i - 1)
    ensures var j := OwnerIn(m, first + i - 1).1; var records := RecordsFor(entries, first, vcnt);
      BlocksBefore(records, i) == BlocksBefore(records, i - j + 1)
  {
    hide Lists, RecordsFor;
    RecordBeforeLast(m, entries, first, vcnt, i - 1);
    var j := OwnerIn(m, first + i - 1).1;
    var records := RecordsFor(entries, first, vcnt);
    if j > 1 {
      assert BlocksBefore(records, i) == BlocksBefore(records, i + 1 - Min(j, CBLKCNT - 1));
    }
  }

  /** The records before a head add up to its distance from the base. */
  lemma {:induction false} HeadAddress(m: Mapping, entries: seq<IndexEntry>, first: nat, vcnt: nat, i: nat)
    requires Compactable(m) && Lists(m, false, |m.extents|, entries) && i < vcnt <= 16 && first + i < |entries|
    requires IsHead(m, first + i)
    ensures var r := BlocksBefore(RecordsFor(entries, first, vcnt), i);
      r.Some? && TrueBase(m, first) + r.value == Address(m, first + i)
    decreases i
  {
    assert |entries| == Start(m.extents, |m.extents|);
    hide BlocksBefore, Lists, RecordsFor, CursorAt, OwnerIn, Start;
    var n := first + i;
    var records := RecordsFor(entries, first, vcnt);
    if i == 0 {
      BlocksAtStart(records, 0);
    } else if IsHead(m, n - 1) {
      RecordBeforeLast(m, entries, first, vcnt, i - 1);
      BlocksPastHead(records, i);
      HeadAfterHead(m, n);
      HeadAddress(m, entries, first, vcnt, i - 1);
    } else {
      HeadAfterExtent(m, n);
      var (k, j) := OwnerIn(m, n - 1);
      WalkToCount(m, entries, first, vcnt, i);
      if i >= j {
        assert Shaped(m.extents[k]);
        AcrossExtent(m, entries, first, vcnt, k, i - j);
      } else {
        InsideExtent(m, first, n);
        BlocksAtStart(records, i - j + 1);
      }
    }
  }

  /** The compact pack starts beyond the extent's count record: its base is the next head. */
  lemma {:induction false} InsideExtent(m: Mapping, first: nat, n: nat)
    requires Compactable(m) && first < n < Start(m.extents, |m.extents|)
    requires IsHead(m, n) && !IsHead(m, n - 1) && n - first < OwnerIn(m, n - 1).1
    ensures TrueBase(m, first) == Address(m, n)
  {
    HeadAfterExtent(m, n);
    var (k, j) := OwnerIn(m, n - 1);
    OwnerOf(m.extents, |m.extents|, k, j - (n - 1 - first));
    OwnerOf(m.extents, |m.extents|, k, j - (n - first));
  }

  /** The compact pack starts at the extent's count record: its base is the extent itself. */
  lemma {:induction false} AtCount(m: Mapping, first: nat, k: nat)
    requires Compactable(m) && k < |m.extents| && !m.extents[k].plain && first == Start(m.extents, k) + 1
    requires Shaped(m.extents[k])
    ensures first < Start(m.extents, |m.extents|) && TrueBase(m, first) == m.extents[k].blkOff
  {
    OwnerOf(m.extents, |m.extents|, k, 1);
    OwnerOf(m.extents, |m.extents|, k, 0);
  }

  lemma {:induction false} OverCount(m: Mapping, entries: seq<IndexEntry>, first: nat, vcnt: nat, x: nat)
    requires Compactable(m) && Lists(m, false, |m.extents|, entries) && x + 1 < vcnt && first + x < |entries|
    requires !IsHead(m, first + x) && OwnerIn(m, first + x).1 == 1
    ensures var records := RecordsFor(entries, first, vcnt);
      BlocksBefore(records, x + 1) == Plus(m.extents[OwnerIn(m, first + x).0].blocks, BlocksBefore(records, x - 1))
  {
    RecordBeforeLast(m, entries, first, vcnt, x);
  }

  /** The compact pack holds the count record of extent k at x, and perhaps its head: what
      follows the extent is placed right after its blocks. */
  lemma {:induction false} AcrossExtent(m: Mapping, entries: seq<IndexEntry>, first: nat, vcnt: nat, k: nat, x: nat)
    requires Compactable(m) && Lists(m, false, |m.extents|, entries) && x + 1 < vcnt <= 16
    requires k < |m.extents| && Shaped(m.extents[k]) && !m.extents[k].plain && first + x == Start(m.extents, k) + 1
    ensures first < Start(m.extents, |m.extents|)
    ensures var r := BlocksBefore(RecordsFor(entries, first, vcnt), x + 1);
      r.Some? && TrueBase(m, first) + r.value == m.extents[k].blkOff + m.extents[k].blocks
    decreases x, 0
  {
    OwnerOf(m.extents, |m.extents|, k, 1);
    OwnerOf(m.extents, |m.extents|, k, 0);
    OverCount(m, entries, first, vcnt, x);
    hide BlocksBefore, Lists, RecordsFor, CursorAt, Start;
    if x > 0 {
      HeadAddress(m, entries, first, vcnt, x - 1);
    } else {
      AtCount(m, first, k);
      BlocksAtStart(RecordsFor(entries, first, vcnt), -1);
    }
  }

  lemma {:induction false} BlocksAtStart(records: seq<Record>, j: int)
    requires j <= 0
    ensures BlocksBefore(records, j) == Some(0)
  {
  }

  lemma {:induction false} BlocksPastHead(records: seq<Record>, j: int)
    requires 0 < j <= |records| && records[j - 1].typ != NONHEAD
    ensures BlocksBefore(records, j) == Plus(1, BlocksBefore(records, j - 1))
  {
  }

  // ---- every record of a pack reads back -------------------------------------------------------

  /** The last record of a pack: forward distance, unless it is the count record. */
  lemma {:induction false} LastRecord(m: Mapping, entries: seq<IndexEntry>, first: nat, vcnt: nat)
    requires Compactable(m) && Lists(m, false, |m.extents|, entries) && vcnt > 0 && first + vcnt <= |entries|
    requires !IsHead(m, first + vcnt - 1)
    ensures var r := RecordsFor(entries, first, vcnt)[vcnt - 1];
      var (k, i) := OwnerIn(m, first + vcnt - 1);
      r.typ == NONHEAD && HasCount(r.lo) == (i == 1) && (i == 1 ==> r.lo == CBLKCNT + m.extents[k].blocks)
  {
    var (k, i) := OwnerIn(m, first + vcnt - 1);
    EntryAt(m, entries, first + vcnt - 1);
    RecordsForAt(entries, first, vcnt, vcnt - 1);
    DeltaOf(m, k, i);
  }

  /** The delta read for a non-head stays inside its extent. */
  lemma {:induction false} NonHeadReads(m: Mapping, entries: seq<IndexEntry>, first: nat, vcnt: nat, x: nat)
    requires Compactable(m) && Lists(m, false, |m.extents|, entries) && 2 <= vcnt && x < vcnt && first + x < |entries|
    requires !IsHead(m, first + x)
    ensures var (k, i) := OwnerIn(m, first + x);
      RecordsFor(entries, first, vcnt)[x].typ == NONHEAD
      && NonHeadMeans(m.extents[k], i, NonHeadDelta(RecordsFor(entries, first, vcnt), x))
      && NonHeadDelta(RecordsFor(entries, first, vcnt), x) < 65536
  {
    var (k, i) := OwnerIn(m, first + x);
    assert Shaped(m.extents[k]);
    if x + 1 < vcnt {
      RecordBeforeLast(m, entries, first, vcnt, x);
    } else {
      LastRecord(m, entries, first, vcnt);
      if i > 1 {
        OwnerOf(m.extents, |m.extents|, k, i - 1);
        RecordBeforeLast(m, entries, first, vcnt, x - 1);
      }
    }
  }

  lemma {:induction false} HeadRecord(m: Mapping, entries: seq<IndexEntry>, first: nat, vcnt: nat, x: nat)
    requires Compactable(m) && Lists(m, false, |m.extents|, entries) && x < vcnt && first + x < |entries|
    requires IsHead(m, first + x)
    ensures var (k, i) := OwnerIn(m, first + x);
      RecordsFor(entries, first, vcnt)[x] == Record(if m.extents[k].plain then PLAIN else HEAD1, 0)
  {
    EntryAt(m, entries, first + x);
    RecordsForAt(entries, first, vcnt, x);
  }

  lemma {:induction false} AddressSmall(m: Mapping, n: nat)
    requires Compactable(m) && n < Start(m.extents, |m.extents|)
    ensures Address(m, n) < 0x1_0000_0000
  {
    var (k, i) := OwnerIn(m, n);
    assert Shaped(m.extents[k]);
  }

  lemma {:induction false} HeadReads(m: Mapping, entries: seq<IndexEntry>, first: nat, vcnt: nat, x: nat)
    requires Compactable(m) && Lists(m, false, |m.extents|, entries) && 2 <= vcnt <= 16 && x < vcnt && first + x < |entries|
    requires IsHead(m, first + x)
    ensures var (k, i) := OwnerIn(m, first + x);
      CompactEntry(RecordsFor(entries, first, vcnt), TrueBase(m, first) % 0x1_0000_0000, x)
      == Some(IndexEntry(if m.extents[k].plain then PLAIN else HEAD1, 0, Address(m, first + x)))
  {
    hide RecordsFor, BlocksBefore, CursorAt, Owner;
    HeadRecord(m, entries, first, vcnt, x);
    HeadAddress(m, entries, first, vcnt, x);
    AddressSmall(m, first + x);
  }

  /** A pack's records and base give a correct entry for each of its clusters. */
  lemma {:induction false} PackMeans(m: Mapping, entries: seq<IndexEntry>, first: nat, vcnt: nat, x: nat)
    requires Compactable(m) && Lists(m, false, |m.extents|, entries) && 2 <= vcnt <= 16 && x < vcnt && first + x < |entries|
    ensures var r := CompactEntry(RecordsFor(entries, first, vcnt), TrueBase(m, first) % 0x1_0000_0000, x);
      var (k, i) := OwnerIn(m, first + x);
      r.Some? && Means(m, false, k, i, r.value)
  {
    hide RecordsFor, BlocksBefore, NonHeadDelta, HasCount, NonHeadMeans, TrueBase, Owner;
    if IsHead(m, first + x) {
      HeadReads(m, entries, first, vcnt, x);
    } else {
      NonHeadReads(m, entries, first, vcnt, x);
    }
  }

  // ---- the whole array ---------------------------------------------------------------------------

  function CompactIndexSize(idxStart: nat, n: nat): (r: nat) {
    var initial := Initial(idxStart, n);
    var middle := Middle(initial, n);
    var tail := n - initial - middle;
    initial * 4 + middle * 2 + (tail + 1) / 2 * 8
  }

  /** The compact pack of cluster lcn stands in buf where a reader looks for it. */
  ghost predicate PackWritten(m: Mapping, entries: seq<IndexEntry>, idxStart: nat, buf: seq<byte>, lcn: nat)
    requires |m.extents| > 0 && |entries| == Start(m.extents, |m.extents|) && lcn < |entries|
  {
    var p := PackOf(idxStart, |entries|, lcn);
    PackHolds(Slice(buf, p.offset, PackBytes(p.vcnt)), p.vcnt, RecordsFor(entries, p.first, p.vcnt),
              TrueBase(m, p.first) % 0x1_0000_0000)
  }

  /** Appends one pack: its clusters become readable and earlier ones stay so. */
  method AppendPack(m: Mapping, entries: seq<IndexEntry>, idxStart: nat, buf0: seq<byte>, pos: nat, vcnt: nat, c: Cursor)
    returns (buf: seq<byte>, next: Cursor)
    requires Compactable(m) && Lists(m, false, |m.extents|, entries) && PackKind(vcnt)
    requires forall e <- entries :: Packable(e)
    requires pos < |entries| && c == CursorAt(m, pos)
    requires forall lcn :: 0 <= lcn < pos ==> PackWritten(m, entries, idxStart, buf0, lcn)
    requires forall lcn :: pos <= lcn < pos + vcnt && lcn < |entries| ==> PackOf(idxStart, |entries|, lcn) == Pack(vcnt, pos, |buf0|)
    ensures |buf| == |buf0| + PackBytes(vcnt)
    ensures forall lcn :: 0 <= lcn < pos + vcnt && lcn < |entries| ==> PackWritten(m, entries, idxStart, buf, lcn)
    ensures pos + vcnt <= |entries| ==> next == CursorAt(m, pos + vcnt)
  {
    hide RecordsFor, RecordsOf, CursorAt, TrueBase, Advance, PackOf;
    var pack;
    pack, next := WritePack(entries, pos, vcnt, c);
    BaseSteps(m, entries, pos, vcnt);
    if pos + vcnt <= |entries| { CursorSteps(m, entries, pos, vcnt); }
    buf := buf0 + pack;
    forall lcn | 0 <= lcn < pos + vcnt && lcn < |entries| ensures PackWritten(m, entries, idxStart, buf, lcn) {
      if lcn < pos {
        assert PackWritten(m, entries, idxStart, buf0, lcn);
        var p := PackOf(idxStart, |entries|, lcn);
        SlicePrefix(buf0, pack, p.offset, PackBytes(p.vcnt));
      } else {
        assert Slice(buf, |buf0|, PackBytes(vcnt)) == pack;
      }
    }
  }

  /** A pack boundary, and the bytes of the array before it. */
  ghost predicate Boundary(idxStart: nat, n: nat, pos: nat, written: nat) {
    var initial := Initial(idxStart, n);
    var middle := Middle(initial, n);
    if pos < initial then pos % 2 == 0 && written == pos * 4
    else if pos < initial + middle then (pos - initial) % 16 == 0 && written == initial * 4 + (pos - initial) * 2
    else (pos - initial - middle) % 2 == 0 && written == initial * 4 + middle * 2 + (pos - initial - middle) * 4
  }

  /** The kind of the compact pack that starts at pos. */
  function KindAt(idxStart: nat, n: nat, pos: nat): (vcnt: nat)
    ensures PackKind(vcnt)
  {
    var initial := Initial(idxStart, n);
    if initial <= pos < initial + Middle(initial, n) then 16 else 2
  }

  lemma {:induction false} InitialEven(idxStart: nat, n: nat)
    requires idxStart % 8 == 0
    ensures Initial(idxStart, n) % 2 == 0
  {
    var x := idxStart % 32;
    assert x == 0 || x == 8 || x == 16 || x == 24;
  }

  lemma {:induction false} SameQuotient(x: nat, y: nat)
    ensures x % 2 == 0 && x <= y < x + 2 ==> y / 2 == x / 2 && x / 2 * 2 == x
    ensures x % 16 == 0 && x <= y < x + 16 ==> y / 16 == x / 16 && x / 16 * 16 == x
  {
  }

  /** Every cluster up to the next boundary is read from the compact pack that starts here. */
  lemma {:induction false} BoundaryPack(idxStart: nat, n: nat, pos: nat, written: nat, lcn: nat)
    requires idxStart % 8 == 0 && Boundary(idxStart, n, pos, written)
    requires pos <= lcn < pos + KindAt(idxStart, n, pos) && lcn < n
    ensures PackOf(idxStart, n, lcn) == Pack(KindAt(idxStart, n, pos), pos, written)
  {
    hide Initial, Middle;
    InitialEven(idxStart, n);
    var initial := Initial(idxStart, n);
    var middle := Middle(initial, n);
    SectionPack(initial, middle, pos, lcn);
  }

  lemma {:induction false} SectionPack(initial: nat, middle: nat, pos: nat, lcn: nat)
    requires initial % 2 == 0 && middle % 16 == 0 && pos <= lcn
    ensures pos < initial && pos % 2 == 0 && lcn < pos + 2 ==> lcn < initial && lcn / 2 * 2 == pos && lcn / 2 * 8 == pos * 4
    ensures initial <= pos < initial + middle && (pos - initial) % 16 == 0 && lcn < pos + 16 ==>
      lcn < initial + middle && (lcn - initial) / 16 * 16 == pos - initial && (lcn - initial) / 16 * 32 == (pos - initial) * 2
    ensures initial + middle <= pos && (pos - initial - middle) % 2 == 0 && lcn < pos + 2 ==>
      (lcn - initial - middle) / 2 * 2 == pos - initial - middle && (lcn - initial - middle) / 2 * 8 == (pos - initial - middle) * 4
  {
    if initial <= pos < initial + middle { SameQuotient(pos - initial, lcn - initial); }
    if initial + middle <= pos { SameQuotient(pos - initial - middle, lcn - initial - middle); }
  }

  lemma {:induction false} BoundaryNext(idxStart: nat, n: nat, pos: nat, written: nat)
    requires idxStart % 8 == 0 && Boundary(idxStart, n, pos, written) && pos < n
    ensures var vcnt := KindAt(idxStart, n, pos); Boundary(idxStart, n, pos + vcnt, written + PackBytes(vcnt))
    ensures KindAt(idxStart, n, pos) == 16 ==> pos + 16 <= n
  {
    hide Initial, Middle;
    InitialEven(idxStart, n);
    var initial := Initial(idxStart, n);
    SectionNext(initial, Middle(initial, n), pos);
  }

  lemma {:induction false} SectionNext(initial: nat, middle: nat, pos: nat)
    requires initial % 2 == 0 && middle % 16 == 0
    ensures pos < initial && pos % 2 == 0 ==> pos + 2 <= initial
    ensures initial <= pos < initial + middle && (pos - initial) % 16 == 0 ==> pos + 16 <= initial + middle
    ensures (pos + 2) % 2 == pos % 2 && (pos >= initial ==> (pos + 16 - initial) % 16 == (pos - initial) % 16)
    ensures pos >= initial + middle ==> (pos + 2 - initial - middle) % 2 == (pos - initial - middle) % 2
  {
    if initial <= pos < initial + middle && (pos - initial) % 16 == 0 {
      assert (middle - (pos - initial)) % 16 == 0;
    }
  }

  lemma {:induction false} BoundaryEnd(idxStart: nat, n: nat, pos: nat, written: nat)
    requires Boundary(idxStart, n, pos, written) && n <= pos <= n + 1
    ensures written == CompactIndexSize(idxStart, n)
  {
    hide Initial, Middle;
  }

  /** Writes the index array of a contiguous file: the packs end exactly at the
      planned size and each cluster's pack is where a reader looks for it. */
  method WriteCompactIndexes(m: Mapping, entries: seq<IndexEntry>, idxStart: nat) returns (buf: seq<byte>)
    requires Compactable(m) && Lists(m, false, |m.extents|, entries) && idxStart % 8 == 0
    requires forall e <- entries :: Packable(e)
    ensures |buf| == CompactIndexSize(idxStart, |entries|)
    ensures forall lcn :: 0 <= lcn < |entries| ==> PackWritten(m, entries, idxStart, buf, lcn)
  {
    var n := |entries|;
    var c := CursorAt(m, 0);
    InitialEven(idxStart, n);
    assert Boundary(idxStart, n, 0, 0);
    hide RecordsFor, PackWritten, CursorAt, Boundary, PackOf, CompactIndexSize, KindAt;
    buf := [];
    var pos := 0;
    while pos < n
      invariant 0 <= pos <= n + 1 && Boundary(idxStart, n, pos, |buf|)
      invariant pos <= n ==> c == CursorAt(m, pos)
      invariant forall lcn :: 0 <= lcn < pos && lcn < n ==> PackWritten(m, entries, idxStart, buf, lcn)
    {
      var vcnt := KindAt(idxStart, n, pos);
      BoundaryNext(idxStart, n, pos, |buf|);
      forall lcn | pos <= lcn < pos + vcnt && lcn < n ensures PackOf(idxStart, n, lcn) == Pack(vcnt, pos, |buf|) {
        BoundaryPack(idxStart, n, pos, |buf|, lcn);
      }
      buf, c := AppendPack(m, entries, idxStart, buf, pos, vcnt, c);
      pos := pos + vcnt;
    }
    BoundaryEnd(idxStart, n, pos, |buf|);
  }

  /** Compacted indexes read back: for every cluster of a contiguous file the type,
      the exact address of a head, and a delta that stays within the extent. */
  lemma {:induction false} CompactRoundTrip(image: seq<byte>, m: Mapping, idxStart: nat, entries: seq<IndexEntry>, buf: seq<byte>, lcn: nat)
    requires Compactable(m) && Lists(m, false, |m.extents|, entries) && lcn < |entries|
    requires PackWritten(m, entries, idxStart, buf, lcn)
    requires idxStart + |buf| <= |image| && Slice(image, idxStart, |buf|) == buf
    ensures var r := CompactIndexAt(image, idxStart, |entries|, lcn);
      var (k, i) := OwnerIn(m, lcn);
      r.Some? && Means(m, false, k, i, r.value)
  {
    hide CompactEntry, RecordsFor, RecordsOf, TrueBase, PackOf, Means, Lists;
    var p := PackOf(idxStart, |entries|, lcn);
    var pack := Slice(buf, p.offset, PackBytes(p.vcnt));
    SliceOfSlice(image, idxStart, buf, p.offset, PackBytes(p.vcnt));
    PackMeans(m, entries, p.first, p.vcnt, lcn - p.first);
  }
}
