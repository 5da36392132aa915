/** Integer facts the non-linear arithmetic of the other modules relies on. */
module Arith {

  lemma SplitDifference(a0: int, d0: int, p: int, r: int, tail: int)
    requires a0 * p + r == d0 * p + tail
    ensures tail == (a0 - d0) * p + r
  {
  }

  lemma AddQuotient(d0: int, tail: int, p: int)
    requires p > 0
    ensures (d0 + tail / p) * p + tail % p == d0 * p + tail
  {
    var q, m := tail / p, tail % p;
    assert tail == q * p + m;
    assert (d0 + q) * p == d0 * p + q * p;
  }

  /** Appending a decimal digit d to a number whose value splits as x * p + y. */
  lemma ShiftDigit(x: int, p: int, y: int, d: int)
    ensures 10 * (x * p + y) + d == x * (10 * p) + (10 * y + d)
  {
  }

  lemma MulBetween(p: nat, x: int, hi: int)
    requires 0 <= x <= hi
    ensures 0 <= p * x <= p * hi
  {
  }

  /** Bounds l1 <= h * a and l2 <= h * b add up. */
  lemma SumBound(l1: int, l2: int, h: int, a: int, b: int)
    requires l1 <= h * a && l2 <= h * b
    ensures l1 + l2 <= h * (a + b)
  {
    assert h * (a + b) == h * a + h * b;
  }

  lemma {:induction false} MulAtLeast(k: int, p: int)
    requires k >= 1 && p > 0
    ensures k * p >= p
  {
  }

  lemma {:induction false} DivModUnique(v: int, p: int, q: int, r: int)
    requires p > 0 && 0 <= r < p && v == q * p + r
    ensures v / p == q && v % p == r
  {
    var q', r' := v / p, v % p;
    assert v == q' * p + r';
    SplitDifference(q, q', p, r, r');
    if q > q' {
      MulAtLeast(q - q', p);
    } else if q < q' {
      MulAtLeast(q' - q, p);
    }
  }

  /** b to the power k. */
  function Pow(b: nat, k: nat): (p: nat)
    ensures b > 0 ==> p > 0
  {
    if k == 0 then 1 else b * Pow(b, k - 1)
  }

  lemma {:induction false} PowMonotonic(b: nat, j: nat, k: nat)
    requires b > 0 && j <= k
    ensures Pow(b, j) <= Pow(b, k)
    decreases k
  {
    if j < k {
      PowMonotonic(b, j, k - 1);
    }
  }

  /** The greatest common divisor, by Euclid's algorithm (numpy.gcd on non-negative
      integers). */
  function Gcd(a: nat, b: nat): (g: nat)
    ensures a > 0 || b > 0 ==> g > 0
    decreases b
  {
    if b == 0 then a else Gcd(b, a % b)
  }

  /** A common divisor of b and r divides q * b + r. */
  lemma DividesCombination(g: int, q: int, b: int, r: int)
    requires g > 0 && b % g == 0 && r % g == 0
    ensures (q * b + r) % g == 0
  {
    var kb, kr := b / g, r / g;
    assert b == kb * g && r == kr * g;
    assert q * b + r == (q * kb + kr) * g;
    DivModUnique(q * b + r, g, q * kb + kr, 0);
  }

  /** Gcd(a, b) divides a and b. */
  lemma {:induction false} GcdDivides(a: nat, b: nat)
    requires a > 0 || b > 0
    ensures a % Gcd(a, b) == 0 && b % Gcd(a, b) == 0
    decreases b
  {
    if b == 0 {
      assert a == 1 * a + 0;
      DivModUnique(a, a, 1, 0);
    } else {
      var g, q, r := Gcd(a, b), a / b, a % b;
      assert g == Gcd(b, r);
      GcdDivides(b, r);
      assert a == q * b + r;
      DividesCombination(g, q, b, r);
    }
  }

  /** d is a positive divisor of both a and b. */
  predicate CommonDivisor(d: int, a: int, b: int) {
    d > 0 && a % d == 0 && b % d == 0
  }

  /** Every common divisor of a and b divides Gcd(a, b). */
  lemma {:induction false} GcdGreatest(a: nat, b: nat, d: int)
    requires d > 0 && a % d == 0 && b % d == 0
    ensures Gcd(a, b) % d == 0
    decreases b
  {
    if b > 0 {
      assert a % b == (-(a / b)) * b + a;
      DividesCombination(d, -(a / b), b, a);
      GcdGreatest(b, a % b, d);
    }
  }

  /** Cell x of a row of cells of width p within length n starts before n ends. */
  lemma CellInRange(x: int, p: int, n: int, r: int)
    requires p > 0 && n >= 0 && 0 <= x < n / p && 0 <= r < p
    ensures 0 <= x * p + r < n
  {
    assert (x + 1) * p <= (n / p) * p by {
      MulAtLeast(n / p - x, p);
      assert (n / p - x) * p == (n / p) * p - x * p;
    }
    assert x * p >= 0 by {
      if x > 0 {
        MulAtLeast(x, p);
      }
    }
  }
}
