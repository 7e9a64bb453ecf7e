/** Division facts that the solver does not find for a symbolic block size. */
module Arith {
  lemma {:induction false} MulBounds(b: int, k: int)
    requires b > 0
    ensures k >= 1 ==> b * k >= b
    ensures k <= -1 ==> b * k <= -b
    ensures b * 0 == 0
  {
  }

  /** A quotient and remainder are the only ones. */
  lemma {:induction false} DivUnique(x: int, b: int, q: int, r: int)
    requires b > 0 && x == b * q + r && 0 <= r < b
    ensures x / b == q && x % b == r
  {
    var d, m := x / b, x % b;
    assert x == b * d + m;
    assert b * (q - d) == m - r by {
      assert b * (q - d) == b * q - b * d;
    }
    MulBounds(b, q - d);
  }

  lemma {:induction false} MulMod(q: int, b: int)
    requires b > 0
    ensures (b * q) % b == 0 && (b * q) / b == q
  {
    DivUnique(b * q, b, q, 0);
  }

  /** The quotient as a witness of divisibility. */
  lemma {:induction false} DivExact(x: int, b: int)
    requires b > 0 && x % b == 0
    ensures x == b * (x / b)
  {
  }

  lemma {:induction false} MultipleAtLeast(x: int, b: int)
    requires b > 0 && x > 0 && x % b == 0
    ensures b <= x
  {
  }

  lemma {:induction false} AlignDown(x: int, b: int)
    requires b > 0
    ensures (x - x % b) % b == 0
  {
    assert x - x % b == b * (x / b);
    MulMod(x / b, b);
  }

  lemma {:induction false} SumMod(x: int, y: int, b: int)
    requires b > 0 && x % b == 0
    ensures (x + y) % b == y % b && (x + y) / b == x / b + y / b
  {
    var q := x / b + y / b;
    assert b * q == b * (x / b) + b * (y / b);
    DivUnique(x + y, b, q, y % b);
  }

  function CeilDiv(x: int, b: int): (r: int)
    requires b > 0
  {
    (x + b - 1) / b
  }

  lemma {:induction false} MulMonotone(b: int, x: int, y: int)
    requires b >= 0 && x <= y
    ensures b * x <= b * y
  {
  }

  lemma {:induction false} CeilBounds(x: int, b: int)
    requires b > 0
    ensures x <= b * CeilDiv(x, b) < x + b
  {
    var y := x + b - 1;
    assert y == b * (y / b) + y % b;
  }

  /** The ceiling is the only multiple in its range. */
  lemma {:induction false} CeilUnique(x: int, b: int, q: int)
    requires b > 0 && x <= b * q < x + b
    ensures CeilDiv(x, b) == q
  {
    DivUnique(x + b - 1, b, q, x + b - 1 - b * q);
  }
}
