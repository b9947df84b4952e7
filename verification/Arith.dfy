/** Division and remainder by a variable divisor, isolated from the proofs that use them. */
module Arith {

  /** Unsigned 32-bit numbers wrap here. */
  const U32 := 0x1_0000_0000

  lemma MulOrder(d: int, q: int)
    requires d > 0
    ensures q <= 0 ==> d * q <= 0
    ensures q >= 1 ==> d * q >= d
    ensures q >= 2 ==> d * q >= 2 * d
    ensures q < 0 ==> d * q <= -d
  {}

  /** An index that runs past the end of a circular buffer wraps around once. */
  lemma WrapsOnce(x: int, cap: int)
    requires 0 <= x < 2 * cap
    ensures x % cap == if x < cap then x else x - cap
  {
    var q := x / cap;
    assert x == cap * q + x % cap;
    MulOrder(cap, q);
  }

  lemma AddMultiple(x: int, q: int, d: int)
    requires d > 0
    ensures (x + d * q) % d == x % d
  {
    var y := x + d * q;
    var a := y / d - x / d - q;
    assert d * a == d * (y / d) - d * (x / d) - d * q == x % d - y % d;
    MulOrder(d, a);
  }

  /** An index that runs past the end any number of times. */
  lemma WrapsOften(start: int, m: int, cap: int)
    requires 0 <= start < cap && 0 <= m
    ensures 0 <= m % cap < cap
    ensures (start + m) % cap == var x := start + m % cap; if x < cap then x else x - cap
  {
    var o := m % cap;
    assert start + m == start + o + cap * (m / cap);
    AddMultiple(start + o, m / cap, cap);
    WrapsOnce(start + o, cap);
  }

  lemma DivBound(a: int, b: int, c: int)
    requires b > 0
    ensures a / b >= c <==> a >= c * b
  {
    var q, r := a / b, a % b;
    assert a == b * q + r;
    if q >= c {
      assert b * q >= b * c;
    } else {
      assert b * q <= b * (c - 1);
      assert b * (c - 1) == b * c - b;
    }
  }
}
