/** Facts about integer division and products that the fee rules need. */
module Arith {

  /** Integer division of naturals. */
  function Div(n: nat, d: nat): nat
    requires d > 0
  {
    n / d
  }

  /** Dividing by more gives no more. */
  lemma DivAntitone(n: nat, a: nat, b: nat)
    requires 0 < a <= b
    ensures n / b <= n / a
  {
    var q := n / b;
    var e := b - a;
    assert q * b == q * a + q * e;
    assert q * e >= 0;
    QuotientIsLargest(n, a, q);
  }

  /** Any multiple of `a` up to `n` counts at most `n / a` times `a`. */
  lemma QuotientIsLargest(n: nat, a: nat, q: nat)
    requires a > 0 && q * a <= n
    ensures q <= n / a
  {
    var r, m := n / a, n % a;
    assert n == r * a + m && m < a;
    if q > r {
      MulAtLeastNext(r, q, a);
    }
  }

  /** Counting one more `a` adds at least `a`. */
  lemma MulAtLeastNext(r: nat, q: nat, a: nat)
    requires r < q
    ensures q * a >= r * a + a
  {
    var d := q - r - 1;
    assert q * a == r * a + a + d * a;
  }

  /** Squaring keeps the order of naturals. */
  lemma SquareMonotone(x: nat, y: nat)
    requires x <= y
    ensures x * x <= y * y
  {
    assert x * x <= x * y by {
      assert x * (y - x) >= 0;
    }
    assert x * y <= y * y by {
      assert (y - x) * y >= 0;
    }
  }

  /** A fraction in [0, 1) of a non-negative amount lies between zero and the amount. */
  lemma FractionOf(r: real, s: real)
    requires 0.0 <= r < 1.0 && s >= 0.0
    ensures 0.0 <= r * s <= s
  {
    assert (1.0 - r) * s >= 0.0;
  }

  /** Rounding a ratio of naturals down is integer division. */
  lemma FloorOfRatio(n: nat, d: nat)
    requires d > 0
    ensures (n as real / d as real).Floor == n / d
  {
    var q, m := n / d, n % d;
    assert n == q * d + m;
    assert n as real / d as real == q as real + m as real / d as real;
    assert 0.0 <= m as real / d as real < 1.0;
  }
}
