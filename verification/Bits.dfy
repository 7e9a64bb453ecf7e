/** Numbers and bytes as little-endian bit strings, and bit fields packed in bytes. */
module Bits {
  import opened Bytes
  import opened Arith
  import opened ZIndex

  function Pow2(n: nat): (r: nat)
    ensures r > 0
  {
    if n == 0 then 1 else 2 * Pow2(n - 1)
  }

  function ValueOf(bits: seq<bool>): (v: nat) {
    if bits == [] then 0 else (if bits[0] then 1 else 0) + 2 * ValueOf(bits[1..])
  }

  function BitsOf(v: nat, width: nat): (bits: seq<bool>)
    ensures |bits| == width
  {
    if width == 0 then [] else [v % 2 == 1] + BitsOf(v / 2, width - 1)
  }

  lemma {:induction false} ValueBound(bits: seq<bool>)
    ensures ValueOf(bits) < Pow2(|bits|)
  {
    if bits != [] { ValueBound(bits[1..]); }
  }

  lemma {:induction false} ValueOfBitsOf(v: nat, width: nat)
    requires v < Pow2(width)
    ensures ValueOf(BitsOf(v, width)) == v
  {
    if width > 0 { ValueOfBitsOf(v / 2, width - 1); }
  }

  lemma {:induction false} BitsOfValueOf(bits: seq<bool>)
    ensures BitsOf(ValueOf(bits), |bits|) == bits
  {
    if bits != [] { BitsOfValueOf(bits[1..]); }
  }

  lemma {:induction false} AppendStep(bit: nat, va: nat, half: nat, v: nat, vab: nat)
    requires vab == va + half * v
    ensures bit + 2 * vab == (bit + 2 * va) + (2 * half) * v
  {
    assert (2 * half) * v == 2 * (half * v);
  }

  lemma {:induction false} ValueAppend(a: seq<bool>, b: seq<bool>)
    ensures ValueOf(a + b) == ValueOf(a) + Pow2(|a|) * ValueOf(b)
  {
    if a == [] {
      assert a + b == b;
    } else {
      assert (a + b)[1..] == a[1..] + b;
      ValueAppend(a[1..], b);
      AppendStep(if a[0] then 1 else 0, ValueOf(a[1..]), Pow2(|a| - 1), ValueOf(b), ValueOf(a[1..] + b));
    }
  }

  /** Shifting right drops low bits; masking keeps them. */
  lemma {:induction false} ValueSplit(bits: seq<bool>, k: nat)
    requires k <= |bits|
    ensures ValueOf(bits) / Pow2(k) == ValueOf(bits[k..]) && ValueOf(bits) % Pow2(k) == ValueOf(bits[..k])
  {
    assert bits == bits[..k] + bits[k..];
    ValueAppend(bits[..k], bits[k..]);
    ValueBound(bits[..k]);
    DivUnique(ValueOf(bits), Pow2(k), ValueOf(bits[k..]), ValueOf(bits[..k]));
  }

  // ---- bytes -----------------------------------------------------------------------

  function ByteBits(b: seq<byte>): (bits: seq<bool>)
    ensures |bits| == 8 * |b|
  {
    if b == [] then [] else BitsOf(b[0], 8) + ByteBits(b[1..])
  }

  lemma {:induction false} ByteBitsAt(b: seq<byte>, p: nat)
    requires p < 8 * |b|
    ensures ByteBits(b)[p] == BitsOf(b[p / 8], 8)[p % 8]
  {
    hide BitsOf;
    if p >= 8 { ByteBitsAt(b[1..], p - 8); }
  }

  lemma {:induction false} Pow2Of8()
    ensures Pow2(8) == 256
  {
    assert Pow2(8) == 2 * 2 * 2 * 2 * Pow2(4);
  }

  lemma {:induction false} ByteBitsValue(b: seq<byte>)
    requires b != []
    ensures ValueOf(ByteBits(b)) == b[0] + 256 * ValueOf(ByteBits(b[1..]))
  {
    Pow2Of8();
    ValueAppend(BitsOf(b[0], 8), ByteBits(b[1..]));
    ValueOfBitsOf(b[0], 8);
  }

  lemma {:induction false} WordValue(w: seq<byte>)
    requires |w| == 4
    ensures Get32(w, 0) == ValueOf(ByteBits(w))
  {
    ByteBitsValue(w);
    ByteBitsValue(w[1..]);
    ByteBitsValue(w[2..]);
    ByteBitsValue(w[3..]);
    assert w[1..][1..] == w[2..] && w[2..][1..] == w[3..] && w[3..][1..] == [];
    assert ValueOf(ByteBits([])) == 0;
  }

  // ---- bit fields ------------------------------------------------------------------

  /** Sets bit t of b. */
  function SetBit(b: byte, t: nat): (r: byte)
    requires t < 8
    ensures BitsOf(r, 8) == BitsOf(b, 8)[t := true]
  {
    var bits := BitsOf(b, 8)[t := true];
    ValueBound(bits);
    Pow2Of8();
    BitsOfValueOf(bits);
    ValueOf(bits)
  }

  lemma {:induction false} SetBitAt(b: seq<byte>, pos: nat, p: nat)
    requires pos < 8 * |b| && p < 8 * |b|
    ensures ByteBits(b[pos / 8 := SetBit(b[pos / 8], pos % 8)])[p] == (ByteBits(b)[p] || p == pos)
  {
    ByteBitsAt(b, p);
    ByteBitsAt(b[pos / 8 := SetBit(b[pos / 8], pos % 8)], p);
  }

  /** Ors the low bits of value into dst at bitpos. */
  method PutCompactBits(dst: array<byte>, bitpos: nat, bits: nat, value: nat)
    requires bitpos + bits <= 8 * dst.Length
    modifies dst
    ensures forall p :: 0 <= p < 8 * dst.Length ==>
      ByteBits(dst[..])[p] == (old(ByteBits(dst[..]))[p] || (bitpos <= p < bitpos + bits && BitsOf(value, bits)[p - bitpos]))
  {
    var i := 0;
    while i < bits
      invariant 0 <= i <= bits
      invariant forall p :: 0 <= p < 8 * dst.Length ==>
        ByteBits(dst[..])[p] == (old(ByteBits(dst[..]))[p] || (bitpos <= p < bitpos + i && BitsOf(value, bits)[p - bitpos]))
    {
      if BitsOf(value, bits)[i] {
        var pos := bitpos + i;
        ghost var before := dst[..];
        dst[pos / 8] := SetBit(dst[pos / 8], pos % 8);
        assert dst[..] == before[pos / 8 := SetBit(before[pos / 8], pos % 8)];
        forall p | 0 <= p < 8 * dst.Length ensures ByteBits(dst[..])[p] == (ByteBits(before)[p] || p == pos) {
          SetBitAt(before, pos, p);
        }
      }
      i := i + 1;
    }
  }

  /** Reads bits from bitpos through a zero-extended 32-bit window. */
  function GetBits(pack: seq<byte>, bitpos: nat, bits: nat): (v: nat)
    requires bitpos < 8 * |pack|
  {
    var bytepos := bitpos / 8;
    var part := pack[bytepos..Min(bytepos + 4, |pack|)];
    var word := part + seq(4 - |part|, _ => 0);
    Get32(word, 0) / Pow2(bitpos % 8) % Pow2(bits)
  }

  lemma {:induction false} ShiftAndMask(word: seq<byte>, s: nat, bits: nat)
    requires |word| == 4 && s + bits <= 32
    ensures Get32(word, 0) / Pow2(s) % Pow2(bits) == ValueOf(ByteBits(word)[s..s + bits])
  {
    hide BitsOf, ByteBits, Get32, Pow2;
    WordValue(word);
    var all := ByteBits(word);
    ValueSplit(all, s);
    ValueSplit(all[s..], bits);
    assert all[s..][..bits] == all[s..s + bits];
  }

  /** Bit t behind bit s of a byte is bit t of what starts at that byte. */
  lemma {:induction false} BitWithin(bitpos: nat, t: nat)
    ensures var p, s := bitpos / 8, bitpos % 8; (bitpos + t) / 8 == p + (s + t) / 8 && (bitpos + t) % 8 == (s + t) % 8
  {
    assert bitpos + t == 8 * (bitpos / 8) + (bitpos % 8 + t);
  }

  /** A field that fits the window is read exactly. */
  lemma {:induction false} GetBitsExact(pack: seq<byte>, bitpos: nat, bits: nat)
    requires bitpos + bits <= 8 * |pack| && 0 < bits && bitpos % 8 + bits <= 32
    ensures GetBits(pack, bitpos, bits) == ValueOf(ByteBits(pack)[bitpos..bitpos + bits])
  {
    hide BitsOf, ByteBits, Get32, Pow2, ValueOf;
    var bytepos, s := bitpos / 8, bitpos % 8;
    var part := pack[bytepos..Min(bytepos + 4, |pack|)];
    var word := part + seq(4 - |part|, _ => 0);
    ShiftAndMask(word, s, bits);
    var x, y := ByteBits(word)[s..s + bits], ByteBits(pack)[bitpos..bitpos + bits];
    forall t | 0 <= t < bits ensures x[t] == y[t] {
      ByteBitsAt(word, s + t);
      ByteBitsAt(pack, bitpos + t);
      BitWithin(bitpos, t);
      assert word[(s + t) / 8] == pack[bytepos + (s + t) / 8];
    }
    assert x == y;
  }
}
