/**
 Reading data that is stored flat: in blocks of its own, or inline behind the inode.
 */
module FlatRead {
  import opened Bytes
  import opened Arith
  import opened Spool
  import opened FileMap

  /** A flat inode: its data blocks start at block data; an inline tail stands at
      byte offset inlineAt. */
  datatype FlatInode = FlatInode(inlined: bool, data: nat, inlineAt: nat, size: nat)

  datatype Load = Loaded(bytes: seq<byte>) | Eof | Bad

  /** The image holds content for this inode; an inline tail stays within its block. */
  ghost predicate FlatAt(bs: nat, image: seq<byte>, fi: FlatInode, content: seq<byte>) {
    bs > 0 && fi.size == |content|
    && if fi.inlined then fi.inlineAt % bs + fi.size <= bs && fi.inlineAt + fi.size <= |image| && Slice(image, fi.inlineAt, fi.size) == content
       else bs * fi.data + fi.size <= |image| && Slice(image, bs * fi.data, fi.size) == content
  }

  /** The bytes from pos to the end of its block. */
  function RestOfBlock(bs: nat, content: seq<byte>, pos: nat): (r: seq<byte>)
    requires bs > 0
  {
    Slice(content, pos, Min(bs * (pos / bs) + bs, |content|) - pos)
  }

  /** Where block bn of the inode is read from, and which part of a block it is. */
  datatype Window = Window(addr: nat, offset: int, end: int)

  function WindowAt(bs: nat, fi: FlatInode, bn: nat, pos: nat): (w: Window)
    requires bs > 0
  {
    if bn != CeilDiv(fi.size, bs) - 1 then Window(bs * (fi.data + bn), pos % bs, bs)
    else if fi.inlined then
      Window(bs * (fi.inlineAt / bs), fi.inlineAt % bs + (pos - bs * bn), fi.size - bs * bn + fi.inlineAt % bs)
    else Window(bs * (fi.data + bn), pos % bs, fi.size - bs * bn)
  }

  /** Loads the block that contains pos, from pos on. */
  method LoadBlock(bs: nat, image: seq<byte>, fi: FlatInode, pos: nat, ghost content: seq<byte>) returns (r: Load)
    requires bs > 0
    ensures r == Eof <==> bs * CeilDiv(fi.size, bs) <= pos
    ensures FlatAt(bs, image, fi, content) && pos < fi.size ==> r == Loaded(RestOfBlock(bs, content, pos))
  {
    hide CeilDiv, FlatAt, WindowAt, RestOfBlock, Slice;
    var bn := pos / bs;
    BlockNumber(bs, fi.size, pos);
    if pos < fi.size { LastBlock(bs, fi.size, pos); }
    if bn >= CeilDiv(fi.size, bs) { return Eof; }
    var w := WindowAt(bs, fi, bn, pos);
    if FlatAt(bs, image, fi, content) && pos < fi.size {
      if fi.inlined { InlineWindow(bs, image, fi, pos, content); } else { PlainWindow(bs, image, fi, pos, content); }
    }
    if w.offset < 0 || w.end > bs || w.offset >= w.end { return Bad; }
    var bytes := Slice(image, w.addr + w.offset, w.end - w.offset);
    if |bytes| != w.end - w.offset { return Bad; }
    r := Loaded(bytes);
  }

  /** The window reads exactly the rest of the block. */
  ghost predicate Exact(bs: nat, image: seq<byte>, w: Window, rest: seq<byte>) {
    0 <= w.offset < w.end <= bs && w.end - w.offset == |rest| && Slice(image, w.addr + w.offset, |rest|) == rest
  }

  lemma {:induction false} RestIs(bs: nat, content: seq<byte>, pos: nat)
    requires bs > 0 && pos < |content|
    ensures |RestOfBlock(bs, content, pos)| == Min(bs * (pos / bs) + bs, |content|) - pos > 0
    ensures RestOfBlock(bs, content, pos) == Slice(content, pos, |RestOfBlock(bs, content, pos)|)
  {
    assert pos == bs * (pos / bs) + pos % bs;
  }

  lemma {:induction false} PlainAddress(bs: nat, data: nat, pos: nat)
    requires bs > 0
    ensures bs * (data + pos / bs) + pos % bs == bs * data + pos
  {
    MulSplit(bs, data, pos / bs);
  }

  lemma {:induction false} PlainWindow(bs: nat, image: seq<byte>, fi: FlatInode, pos: nat, content: seq<byte>)
    requires bs > 0 && FlatAt(bs, image, fi, content) && pos < fi.size && !fi.inlined
    ensures Exact(bs, image, WindowAt(bs, fi, pos / bs, pos), RestOfBlock(bs, content, pos))
  {
    hide CeilDiv, Slice, RestOfBlock;
    var bn := pos / bs;
    RestIs(bs, content, pos);
    BlockNumber(bs, fi.size, pos);
    LastBlock(bs, fi.size, pos);
    PlainAddress(bs, fi.data, pos);
    SliceInside(image, bs * fi.data, content, pos, |RestOfBlock(bs, content, pos)|);
  }

  lemma {:induction false} InlineWindow(bs: nat, image: seq<byte>, fi: FlatInode, pos: nat, content: seq<byte>)
    requires bs > 0 && FlatAt(bs, image, fi, content) && pos < fi.size && fi.inlined
    ensures Exact(bs, image, WindowAt(bs, fi, pos / bs, pos), RestOfBlock(bs, content, pos))
  {
    hide CeilDiv, Slice, RestOfBlock;
    RestIs(bs, content, pos);
    OneBlock(bs, fi.size, pos);
    assert fi.inlineAt == bs * (fi.inlineAt / bs) + fi.inlineAt % bs;
    SliceInside(image, fi.inlineAt, content, pos, |RestOfBlock(bs, content, pos)|);
  }

  lemma {:induction false} LastBlock(bs: nat, size: nat, pos: nat)
    requires bs > 0 && pos < size
    ensures pos / bs <= CeilDiv(size, bs) - 1
  {
    BlockNumber(bs, size, pos);
    CeilBounds(size, bs);
  }

  /** Data that fits behind an inode is one block. */
  lemma {:induction false} OneBlock(bs: nat, size: nat, pos: nat)
    requires 0 < size <= bs && pos < size
    ensures CeilDiv(size, bs) == 1 && pos / bs == 0 && bs * (pos / bs) == 0 && pos % bs == pos
  {
    CeilUnique(size, bs, 1);
    DivUnique(pos, bs, 0, pos);
  }

  lemma {:induction false} BlockNumber(bs: nat, size: nat, pos: nat)
    requires bs > 0
    ensures pos == bs * (pos / bs) + pos % bs
    ensures pos / bs >= CeilDiv(size, bs) <==> bs * CeilDiv(size, bs) <= pos
    ensures pos / bs == CeilDiv(size, bs) - 1 ==> size <= bs * (pos / bs) + bs
    ensures pos / bs < CeilDiv(size, bs) - 1 ==> bs * (pos / bs) + bs < size
  {
    var bn, n := pos / bs, CeilDiv(size, bs);
    assert pos == bs * bn + pos % bs;
    CeilBounds(size, bs);
    hide CeilDiv;
    if n <= bn { MulMonotone(bs, n, bn); } else { MulMonotone(bs, bn + 1, n); }
    assert bs * (bn + 1) == bs * bn + bs;
    if bn < n - 1 { MulMonotone(bs, bn + 2, n); assert bs * (bn + 2) == bs * bn + 2 * bs; }
  }
}
