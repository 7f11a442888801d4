/** Small facts about multiplication and division, proved one step at a time. */
module Arith {

  lemma SubMul(a: int, b: int, m: int)
    ensures a * m - b * m == (a - b) * m
  {
  }

  lemma AddMul(a: int, b: int, m: int)
    ensures a * m + b * m == (a + b) * m
  {
  }

  lemma MulAssoc(a: int, b: int, c: int)
    ensures (a * b) * c == a * (b * c)
  {
  }

  lemma MulAtLeast(a: int, m: int)
    requires a >= 1 && m > 0
    ensures a * m >= m
  {
  }

  lemma MulMonoStrict(a: nat, b: nat, m: nat)
    requires a < b && m > 0
    ensures a * m < b * m
  {
  }

  lemma MulMono(a: nat, b: nat, m: nat)
    requires a <= b
    ensures a * m <= b * m
  {
  }

  /** A quotient and remainder pair that decomposes x is the one Dafny's / and % give. */
  lemma DivUnique(x: nat, m: nat, q: nat, r: nat)
    requires m > 0 && x == q * m + r && r < m
    ensures x / m == q && x % m == r
  {
    var q', r' := x / m, x % m;
    assert x == q' * m + r' && r' < m;
    if q' > q {
      SubMul(q', q, m);
      MulAtLeast(q' - q, m);
    } else if q' < q {
      SubMul(q, q', m);
      MulAtLeast(q - q', m);
    }
  }

  /** (m * ts) / ts == m. */
  lemma MulDiv(m: nat, ts: nat)
    requires ts > 0
    ensures (m * ts) / ts == m && (m * ts) % ts == 0
  {
    DivUnique(m * ts, ts, m, 0);
  }

  lemma ModSmall(x: nat, m: nat)
    requires x < m
    ensures x % m == x && x / m == 0
  {
    DivUnique(x, m, 0, x);
  }

  /** (x / a) / b == x / (a * b) for positive divisors. */
  lemma DivDiv(x: nat, a: nat, b: nat)
    requires a > 0 && b > 0
    ensures (x / a) / b == x / (a * b)
  {
    var q1, r1 := x / a, x % a;
    var q2, r2 := q1 / b, q1 % b;
    assert x == q1 * a + r1;
    assert q1 == q2 * b + r2;
    AddMul(q2 * b, r2, a);
    MulAssoc(q2, b, a);
    assert b * a == a * b;
    assert x == q2 * (a * b) + (r2 * a + r1);
    MulMono(r2, b - 1, a);
    SubMul(b, 1, a);
    assert r2 * a + r1 < a * b;
    assert a * b > 0;
    DivUnique(x, a * b, q2, r2 * a + r1);
  }

  /** A natural number divided by a positive one is a natural number. */
  lemma DivNat(x: nat, m: nat)
    requires m > 0
    ensures x / m >= 0
  {
  }

  lemma DivBelow(x: nat, m: nat, b: nat)
    requires m > 0 && x < b * m
    ensures x / m < b
  {
    if x / m >= b {
      MulMono(b, x / m, m);
    }
  }

  lemma BelowNextMultiple(x: nat, m: nat)
    requires m > 0
    ensures x < (x / m + 1) * m
  {
    AddMul(x / m, 1, m);
  }

  /** Dividing by at least one never grows a natural number. */
  lemma DivNoLarger(x: nat, m: nat)
    requires m > 0
    ensures x / m <= x
  {
    var q, r := x / m, x % m;
    assert x == q * m + r;
    if q > 0 {
      MulAtLeast(m, q);
      assert m * q >= q;
    }
  }

  /** Adding a multiple of m does not change the remainder by m. */
  lemma ModAddMultiple(x: nat, k: nat, m: nat)
    requires m > 0
    ensures (x + k * m) % m == x % m
  {
    var q, r := x / m, x % m;
    assert x == q * m + r;
    AddMul(q, k, m);
    DivUnique(x + k * m, m, q + k, r);
  }

  /** 2 to the power k. */
  function Pow2(k: nat): (p: nat)
    ensures p >= 1
  {
    if k == 0 then 1 else 2 * Pow2(k - 1)
  }

  /** Halving x / 2^k once more gives x / 2^(k+1). */
  lemma HalveAgain(x: nat, k: nat)
    ensures (x / Pow2(k)) / 2 == x / Pow2(k + 1)
  {
    DivDiv(x, Pow2(k), 2);
  }
}
