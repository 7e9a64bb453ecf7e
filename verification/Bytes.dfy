/** Bytes, and the facts and constants the on-disk formats share. */
module Bytes {
  type byte = b: int | 0 <= b < 256

  /** Bit 11 of an index delta: the delta carries a block count, which must stay below. */
  const CBLKCNT := 2048

  datatype Option<+T> = None | Some(value: T)

  function Min(a: int, b: int): (r: int) { if a <= b then a else b }

  function Max(a: int, b: int): (r: int) { if a >= b then a else b }

  /** A slice of a slice is a slice. */
  lemma {:induction false} SliceTwice<T>(s: seq<T>, a: nat, b: nat, i: nat, j: nat)
    requires a <= b <= |s| && i <= j <= b - a
    ensures s[a..b][i..j] == s[a + i..a + j]
  {
    var x, y := s[a..b][i..j], s[a + i..a + j];
    forall t | 0 <= t < j - i ensures x[t] == y[t] {
      assert s[a..b][i + t] == s[a + i + t];
    }
  }

  /** How often x is among the first n. */
  function Occurs<T(==)>(s: seq<T>, n: nat, x: T): (r: nat)
    requires n <= |s|
  {
    if n == 0 then 0 else Occurs(s, n - 1, x) + if s[n - 1] == x then 1 else 0
  }

  lemma {:induction false} OccursGrows<T>(s: seq<T>, m: nat, n: nat, x: T)
    requires m <= n <= |s|
    ensures Occurs(s, m, x) <= Occurs(s, n, x)
    decreases n
  {
    if m < n { OccursGrows(s, m, n - 1, x); }
  }

  /** What is there twice is counted twice. */
  lemma {:induction false} OccursTwice<T>(s: seq<T>, i: nat, j: nat)
    requires i < j < |s| && s[i] == s[j]
    ensures Occurs(s, |s|, s[i]) > 1
  {
    OccursGrows(s, i + 1, j, s[i]);
    OccursGrows(s, j + 1, |s|, s[i]);
  }
}
