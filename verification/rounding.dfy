/** Integer facts behind the pipeline's `Math.round`, `Math.floor` and `toFixed`. */
module Rounding {

  function Max(a: int, b: int): int
  {
    if a < b then b else a
  }

  /** `Math.round(n / d)` for a non-negative rational: the nearest integer,
      a tie rounded up. The contract pins the result down uniquely:
      `r <= n/d + 1/2 < r + 1`. */
  function RoundHalfUp(n: nat, d: nat): (r: nat)
    requires d > 0
    ensures 2 * d * r <= 2 * n + d < 2 * d * (r + 1)
  {
    (2 * n + d) / (2 * d)
  }

  /** Quotient and remainder are determined by the division identity. */
  lemma DivModUnique(n: int, d: int, q: int, r: int)
    requires 0 <= r < d
    requires n == q * d + r
    ensures n / d == q && n % d == r
  {
    var q', r' := n / d, n % d;
    assert n == q' * d + r';
    if q' < q {
      assert (q - q') * d == q * d - q' * d;
      MulAtLeast(q - q', d);
    } else if q' > q {
      assert (q' - q) * d == q' * d - q * d;
      MulAtLeast(q' - q, d);
    }
  }

  /** A positive multiple of d is at least d. */
  lemma MulAtLeast(a: int, d: int)
    requires a >= 1 && d > 0
    ensures a * d >= d
  {
    assert a * d == (a - 1) * d + d;
    assert (a - 1) * d >= 0;
  }

  /** Any integer whose half-open rounding window contains n/d is the rounded value. */
  lemma RoundHalfUpUnique(n: nat, d: nat, r: nat)
    requires d > 0
    requires 2 * d * r <= 2 * n + d < 2 * d * (r + 1)
    ensures RoundHalfUp(n, d) == r
  {
    DivModUnique(2 * n + d, 2 * d, r, 2 * n + d - 2 * d * r);
  }

  /** A quotient rounds to zero exactly when it is below one half. */
  lemma RoundHalfUpZeroIff(n: nat, d: nat)
    requires d > 0
    ensures RoundHalfUp(n, d) == 0 <==> 2 * n < d
  {
    var r := RoundHalfUp(n, d);
    if r >= 1 {
      MulAtLeast(r, 2 * d);
      assert 2 * d * r == r * (2 * d);
    }
  }

  /** Rounding to the nearest integer is monotone in the numerator. */
  lemma RoundHalfUpMonotone(n1: nat, n2: nat, d: nat)
    requires d > 0 && n1 <= n2
    ensures RoundHalfUp(n1, d) <= RoundHalfUp(n2, d)
  {
    var r1, r2 := RoundHalfUp(n1, d), RoundHalfUp(n2, d);
    if r1 > r2 {
      assert (r2 + 1) * (2 * d) == 2 * d * (r2 + 1);
      assert r1 * (2 * d) == 2 * d * r1;
      MulLe(r2 + 1, r1, 2 * d);
    }
  }

  /** The floor of s/n lies between lo and hi when s lies in [lo*n, (hi+1)*n). */
  lemma FloorDivBetween(s: int, n: int, lo: int, hi: int)
    requires n > 0
    requires lo * n <= s < (hi + 1) * n
    ensures lo <= s / n <= hi
  {
    var q, m := s / n, s % n;
    assert s == q * n + m;
    if q < lo {
      assert (lo - q) * n == lo * n - q * n;
      MulAtLeast(lo - q, n);
    }
    if q > hi {
      assert (q - hi - 1) * n == q * n - (hi + 1) * n;
      MulLe(0, q - hi - 1, n);
    }
  }

  /** Multiplication distributes over addition. */
  lemma Distrib(a: int, b: int, c: int)
    ensures a * (b + c) == a * b + a * c
    ensures (b + c) * a == b * a + c * a
  {
  }

  /** Multiplication by a non-negative factor is monotone. */
  lemma MulLe(a: int, b: int, d: int)
    requires a <= b && d >= 0
    ensures a * d <= b * d
  {
    assert b * d - a * d == (b - a) * d;
  }

  /** `floor(p / b) * b` is the largest multiple of b not above p. */
  lemma FloorMultiple(p: nat, b: nat)
    requires b > 0
    ensures (p / b) * b <= p < (p / b) * b + b
  {
  }

  /** A multiple of b divides back exactly. */
  lemma MultipleDiv(k: nat, b: nat)
    requires b > 0
    ensures (k * b) / b == k && (k * b) % b == 0
  {
    DivModUnique(k * b, b, k, 0);
  }

  /** p lies in the k-th window of width b exactly when p / b == k. */
  lemma WindowIndex(p: nat, b: nat, k: nat)
    requires b > 0
    ensures (k * b <= p < k * b + b) <==> p / b == k
  {
    if k * b <= p < k * b + b {
      DivModUnique(p, b, k, p - k * b);
    }
    if p / b == k {
      FloorMultiple(p, b);
    }
  }
}
