/** Powers of two, the bits of a natural number, and the ceiling of log2,
    all over unbounded integers. */
module Bits {

  function Pow2(k: nat): (r: nat)
    ensures r >= 1
  {
    if k == 0 then 1 else 2 * Pow2(k - 1)
  }

  /** Bit `i` of `x`, that is `(x >> i) & 1` for a non-negative `x`. */
  function Bit(x: nat, i: nat): (r: nat)
    ensures r == 0 || r == 1
  {
    if i == 0 then x % 2 else Bit(x / 2, i - 1)
  }

  /** Multiples of a positive `d` at different factors lie at least `d` apart. */
  lemma {:induction false} MulGap(d: int, x: int, y: int)
    requires d > 0
    ensures x < y ==> d * x + d <= d * y
    decreases if x < y then y - x else 0
  {
    if x < y - 1 {
      MulGap(d, x, y - 1);
      assert d * y == d * (y - 1) + d;
    } else if x == y - 1 {
      assert d * y == d * x + d;
    }
  }

  /** Division by a positive `d` is determined by any quotient-remainder pair. */
  lemma DivUnique(a: int, d: int, q: int, t: int)
    requires d > 0 && a == d * q + t && 0 <= t < d
    ensures a / d == q
  {
    var q' := a / d;
    assert a == d * q' + a % d && 0 <= a % d < d;
    MulGap(d, q', q);
    MulGap(d, q, q');
  }

  /** Halving and then dividing by 2^i is dividing by 2^(i+1). */
  lemma HalveThenDivide(x: nat, i: nat)
    ensures x / 2 / Pow2(i) == x / Pow2(i + 1)
  {
    var p := Pow2(i);
    var q := x / (2 * p);
    var r := x % (2 * p);
    var m := p * q;
    assert x == 2 * m + r && 0 <= r < 2 * p;
    DivUnique(x, 2, m + r / 2, r % 2);
    DivUnique(x / 2, p, q, r / 2);
  }

  /** `Bit` agrees with `(idx >> i) & 1` as `verify_all_isolated_n` writes
      it: shift right by i, that is divide by 2^i, and keep the lowest bit. */
  lemma {:induction false} BitIsShiftedLowBit(x: nat, i: nat)
    ensures Bit(x, i) == (x / Pow2(i)) % 2
  {
    if i > 0 {
      BitIsShiftedLowBit(x / 2, i - 1);
      HalveThenDivide(x, i - 1);
    }
  }

  /** The least `k` with 2^k >= n; zero when n <= 1. */
  function CeilLog2(n: int): (k: nat)
    ensures Pow2(k) >= n
    ensures n <= 1 ==> k == 0
    ensures n >= 2 ==> k >= 1 && Pow2(k - 1) < n
  {
    if n <= 1 then 0 else 1 + CeilLog2((n + 1) / 2)
  }

  lemma {:induction false} Pow2Monotone(i: nat, j: nat)
    requires i <= j
    ensures Pow2(i) <= Pow2(j)
  {
    if i < j {
      Pow2Monotone(i, j - 1);
    }
  }

  /** CeilLog2 is the least exponent whose power of two reaches `n`. */
  lemma {:induction false} CeilLog2Least(n: int, j: nat)
    requires Pow2(j) >= n
    ensures CeilLog2(n) <= j
  {
    var k := CeilLog2(n);
    if n >= 2 && j < k {
      Pow2Monotone(j, k - 1);
    }
  }

  /** Two different numbers below 2^k differ in one of their k low bits. */
  lemma {:induction false} BitsSeparate(x: nat, y: nat, k: nat)
    requires x != y
    requires x < Pow2(k) && y < Pow2(k)
    ensures exists i :: 0 <= i < k && Bit(x, i) != Bit(y, i)
  {
    if x % 2 != y % 2 {
      assert Bit(x, 0) != Bit(y, 0);
    } else {
      assert k > 0;
      BitsSeparate(x / 2, y / 2, k - 1);
      var i :| 0 <= i < k - 1 && Bit(x / 2, i) != Bit(y / 2, i);
      assert Bit(x, i + 1) != Bit(y, i + 1);
    }
  }

  /** The low `m` bits of 2^m are all zero, as are those of zero. */
  lemma {:induction false} LowBitsOfPow2(m: nat, i: nat)
    requires i < m
    ensures Bit(Pow2(m), i) == 0 && Bit(0, i) == 0
  {
    if i > 0 {
      LowBitsOfPow2(m - 1, i - 1);
    }
  }
}
