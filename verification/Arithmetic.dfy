/** Powers of two and the few facts about products, quotients and remainders used elsewhere. */
module Arithmetic {

  function Pow2(n: nat): (p: nat)
    ensures p > 0
  {
    if n == 0 then 1 else 2 * Pow2(n - 1)
  }

  lemma {:induction false} Pow2Adds(m: nat, n: nat)
    ensures Pow2(m + n) == Pow2(m) * Pow2(n)
    decreases m
  {
    if m > 0 {
      Pow2Adds(m - 1, n);
      Double(Pow2(m - 1), Pow2(n));
    }
  }

  lemma {:induction false} Pow2Grows(m: nat, n: nat)
    requires m <= n
    ensures Pow2(m) <= Pow2(n)
    decreases n
  {
    if m < n {
      Pow2Grows(m, n - 1);
    }
  }

  lemma Pow2Values()
    ensures Pow2(62) == 0x4000_0000_0000_0000 && Pow2(64) == 0x1_0000_0000_0000_0000
  {
    Pow2Adds(16, 16);
    Pow2Adds(32, 16);
    Pow2Adds(48, 14);
    Pow2Adds(48, 16);
    assert Pow2(16) == 0x1_0000 && Pow2(14) == 0x4000;
  }

  lemma Double(a: int, s: int)
    ensures (2 * a) * s == 2 * (a * s)
  {
  }

  lemma MulMonotone(a: int, b: int, s: nat)
    requires a <= b
    ensures a * s <= b * s
  {
  }

  lemma Distribute(a: int, b: int, s: int)
    ensures (a - b) * s == a * s - b * s && (a + b) * s == a * s + b * s
  {
  }

  lemma FlooredQuotient(x: int, s: int, q: int)
    requires s > 0 && q == x / s
    ensures q * s <= x < (q + 1) * s
  {
    Distribute(q, 1, s);
  }

  /** A floored quotient lies between 0 and its dividend. */
  lemma QuotientBetween(x: int, s: int, q: int)
    requires s > 0 && q == x / s
    ensures x >= 0 ==> 0 <= q <= x
    ensures x < 0 ==> x <= q < 0
  {
    FlooredQuotient(x, s, q);
    if x >= 0 {
      if q < 0 { MulMonotone(q + 1, 0, s); }
      MulMonotone(1, s, if q >= 0 then q else 0);
    } else {
      if q >= 0 { MulMonotone(0, q, s); }
      if q < x {
        MulMonotone(q + 1, x, s);
        MulMonotone(1, s, -x);
      }
    }
  }

  /** Division with remainder is unique. */
  lemma ModUnique(n: int, x: int, t: int, m: nat)
    requires m > 0 && n == x + t * m && 0 <= x < m
    ensures n % m == x && n / m == t
  {
    var q := n / m;
    FlooredQuotient(n, m, q);
    if q > t { MulMonotone(t + 1, q, m); Distribute(t, 1, m); }
    if q < t { MulMonotone(q + 1, t, m); }
  }
}
