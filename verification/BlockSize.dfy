/**
 Block sizes: what the writer accepts, the exponent it records, and what a reader
 makes of that.  The writer goes up to 1 MiB, the reader only to 64 KiB.
 */
module BlockSize {
  import opened Bytes
  import opened Bits
  import opened ZLoad

  const MIN_BLOCK := 512
  const MAX_WRITTEN := 0x10_0000
  const DEFAULT_BLOCK := 4096

  ghost predicate PowerOfTwo(n: nat) { exists k: nat :: n == Pow2(k) }

  /** The number of bits set in n. */
  function OnesCount(n: nat): (r: nat) {
    if n == 0 then 0 else n % 2 + OnesCount(n / 2)
  }

  /** The number of zero bits below the lowest one. */
  function TrailingZeros(n: nat): (r: nat)
    requires n > 0
  {
    if n % 2 == 1 then 0 else 1 + TrailingZeros(n / 2)
  }

  /** One bit is set exactly in the powers of two, and it is the exponent's. */
  lemma {:induction false} OneBit(n: nat)
    requires n > 0
    ensures OnesCount(n) >= 1
    ensures OnesCount(n) == 1 <==> n == Pow2(TrailingZeros(n))
    decreases n
  {
    if n > 1 {
      OneBit(n / 2);
      if n % 2 == 1 { assert Pow2(0) == 1; }
    }
  }

  lemma {:induction false} ZerosOfPower(k: nat)
    ensures TrailingZeros(Pow2(k)) == k
  {
    if k > 0 {
      ZerosOfPower(k - 1);
      assert Pow2(k) / 2 == Pow2(k - 1);
    }
  }

  /** Larger exponents are larger blocks. */
  lemma {:induction false} PowerOrder(j: nat, k: nat)
    ensures j < k <==> Pow2(j) < Pow2(k)
  {
    if j > 0 && k > 0 { PowerOrder(j - 1, k - 1); }
  }

  class Writer {
    var blockSize: nat    // 0 until one is chosen

    constructor ()
      ensures blockSize == 0
    {
      blockSize := 0;
    }

    /** Chooses the block size: a power of two within bounds, and only one of them. */
    method SetBlockSize(n: nat) returns (ok: bool)
      modifies this
      ensures ok <==> MIN_BLOCK <= n <= MAX_WRITTEN && PowerOfTwo(n) && (old(blockSize) == 0 || old(blockSize) == n)
      ensures blockSize == if ok then n else old(blockSize)
    {
      if n < MIN_BLOCK || n > MAX_WRITTEN { return false; }
      OneBit(n);
      if n == Pow2(TrailingZeros(n)) { assert PowerOfTwo(n); }
      forall k: nat | n == Pow2(k) ensures k == TrailingZeros(n) { ZerosOfPower(k); }
      if OnesCount(n) != 1 { return false; }
      if blockSize == 0 {
        blockSize := n;
        return true;
      }
      ok := blockSize == n;
    }

    /** The exponent the superblock records; 4096 when nothing was chosen. */
    method BlockBits() returns (bits: nat)
      requires blockSize == 0 || PowerOfTwo(blockSize)
      ensures Pow2(bits) == if blockSize == 0 then DEFAULT_BLOCK else blockSize
    {
      var n := if blockSize == 0 then DEFAULT_BLOCK else blockSize;
      ghost var k: nat;
      if blockSize == 0 { Pow2At12(); k := 12; } else { k :| blockSize == Pow2(k); }
      ZerosOfPower(k);
      bits := TrailingZeros(n);
    }
  }

  lemma {:induction false} Pow2At12()
    ensures Pow2(12) == 4096
  {
    assert Pow2(4) == 16;
    assert Pow2(8) == 16 * Pow2(4);
    assert Pow2(12) == 16 * Pow2(8);
  }

  lemma {:induction false} Pow2At9And16()
    ensures Pow2(9) == 512 && Pow2(16) == 65536
  {
    Pow2At12();
    assert Pow2(12) == 8 * Pow2(9);
    assert Pow2(16) == 16 * Pow2(12);
  }

  /** The reader's check of the exponent. */
  method OpenImage(bits: nat) returns (bs: Option<nat>)
    ensures bs.Some? <==> 9 <= bits <= 16
    ensures bs.Some? ==> bs.value == Pow2(bits)
  {
    if bits < 9 || bits > 16 { return None; }
    bs := Some(Pow2(bits));
  }

  /** An image of any accepted block size is opened if and only if its blocks are at most
      64 KiB. */
  lemma {:induction false} OpensUpTo64K(bits: nat)
    requires MIN_BLOCK <= Pow2(bits) <= MAX_WRITTEN
    ensures 9 <= bits <= 16 <==> Supported(Pow2(bits))
  {
    Pow2At9And16();
    PowerOrder(bits, 9);
    PowerOrder(16, bits);
  }

  /** Block sizes the writer accepts and no reader opens. */
  lemma {:induction false} WrittenNotRead(bits: nat)
    requires 17 <= bits <= 20
    ensures MIN_BLOCK <= Pow2(bits) <= MAX_WRITTEN && !Supported(Pow2(bits))
  {
    Pow2At9And16();
    PowerOrder(16, bits);
    assert Pow2(20) == 16 * Pow2(16);
    PowerOrder(20, bits);
  }
}
