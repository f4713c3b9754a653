/** Integer facts used by the index arithmetic of the engine: powers of two
    (its shifts), products (its strides) and Euclidean division (its
    `/`, `%`, `>>` and low-bit masks on unsigned integers). */
module Arith {

  /** `1 << k`. */
  function Pow2(k: nat): (r: nat)
    ensures r >= 1
  {
    if k == 0 then 1 else 2 * Pow2(k - 1)
  }

  lemma MulStep(j: int, size: int)
    ensures (j + 1) * size == j * size + size
  {
  }

  lemma MulStepRight(size: int, j: int)
    ensures size * (j + 1) == size * j + size
  {
  }

  lemma MulMono(j: int, k: int, size: nat)
    requires j <= k
    ensures j * size <= k * size
  {
  }

  lemma MulPositive(a: nat, b: nat)
    requires a > 0 && b > 0
    ensures a * b > 0
  {
    MulMono(1, a, b);
  }

  /** Quotient and remainder are unique: a decomposition `q * d + r` with
      `r < d` is the one `/` and `%` compute. */
  lemma DivModUnique(n: int, d: int, q: int, r: int)
    requires d > 0 && 0 <= r < d && n == q * d + r
    ensures n / d == q && n % d == r
  {
    var q0, r0 := n / d, n % d;
    if q > q0 {
      MulMono(q0 + 1, q, d);
      MulStep(q0, d);
    } else if q < q0 {
      MulMono(q + 1, q0, d);
      MulStep(q, d);
    }
  }

  /** `n` is its quotient by `d` times `d` plus its remainder. */
  lemma DivMod(n: int, d: int)
    requires d > 0
    ensures n == (n / d) * d + n % d && 0 <= n % d < d
  {
  }

  /** The quotient `a / n` is the largest `m` with `m * n <= a`. */
  lemma DivBounds(a: nat, n: nat)
    requires n > 0
    ensures (a / n) * n <= a < (a / n + 1) * n
  {
    DivMod(a, n);
    MulStep(a / n, n);
  }

  /** A two-digit number in radix `c2` below `c1` times `c2`. */
  lemma MixedRadixBound(j: nat, k: nat, c1: nat, c2: nat)
    requires j < c1 && k < c2
    ensures j * c2 + k < c2 * c1
  {
    MulMono(j, c1 - 1, c2);
    MulStep(c1 - 1, c2);
    assert c1 * c2 == c2 * c1;
  }

  lemma DivExact(c: nat, m: nat)
    requires m > 0
    ensures (m * c) / m == c
  {
    DivModUnique(m * c, m, c, 0);
  }
}
