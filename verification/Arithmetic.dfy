/** Division facts, stated once so that no other proof has to reason about products. */
module Arithmetic {

  lemma MulMonotone(a: int, b: int, c: int)
    requires a <= b && c >= 0
    ensures a * c <= b * c
  {
  }

  lemma MulNext(a: int, c: int)
    ensures (a + 1) * c == a * c + c
  {
  }

  lemma DivideSplit(n: int, d: int)
    requires d > 0
    ensures n == (n / d) * d + n % d && 0 <= n % d < d
  {
  }

  /** A quotient and a remainder in range are the quotient and the remainder. */
  lemma DivideUnique(n: int, d: int, q: int, r: int)
    requires d > 0 && 0 <= r < d && n == q * d + r
    ensures n / d == q && n % d == r
  {
    var q' := n / d;
    DivideSplit(n, d);
    if q' > q {
      MulMonotone(q + 1, q', d);
      MulNext(q, d);
    } else if q' < q {
      MulMonotone(q' + 1, q, d);
      MulNext(q', d);
    }
  }

  lemma DivideNext(n: int, d: int)
    requires d > 0
    ensures (n + 1) / d == n / d + if (n + 1) % d == 0 then 1 else 0
  {
    var q, r := n / d, n % d;
    DivideSplit(n, d);
    if r + 1 == d {
      MulNext(q, d);
      DivideUnique(n + 1, d, q + 1, 0);
    } else {
      DivideUnique(n + 1, d, q, r + 1);
    }
  }

  lemma ResidueShift(n: int, m: int, t: int)
    requires 0 <= t < m
    ensures (n + m - t) % m == 0 <==> n % m == t
  {
    var q, r := n / m, n % m;
    DivideSplit(n, m);
    if r >= t {
      MulNext(q, m);
      DivideUnique(n + m - t, m, q + 1, r - t);
    } else {
      DivideUnique(n + m - t, m, q, m + r - t);
    }
  }

  lemma SameResidueFar(a: int, b: int, m: int)
    requires m > 0 && a < b && a % m == b % m
    ensures b - a >= m
  {
    var p, q := a / m, b / m;
    DivideSplit(a, m);
    DivideSplit(b, m);
    if q <= p {
      MulMonotone(q, p, m);
    } else {
      MulMonotone(p + 1, q, m);
      MulNext(p, m);
    }
  }

  /** Every run of m consecutive integers contains each residue. */
  lemma ResidueWithin(r: int, m: int, t: int) returns (i: int)
    requires 0 <= t < m
    ensures r <= i < r + m && i % m == t
  {
    var q, k := r / m, r % m;
    DivideSplit(r, m);
    if k <= t {
      i := r + (t - k);
      DivideUnique(i, m, q, t);
    } else {
      i := r + (t - k) + m;
      MulNext(q, m);
      DivideUnique(i, m, q + 1, t);
    }
  }

  lemma DivideTwice(n: nat, a: nat, b: nat)
    requires a > 0 && b > 0
    ensures a * b > 0 && (n / a) / b == n / (a * b)
  {
    var q := n / a;
    DivideSplit(n, a);
    DivideSplit(q, b);
    var r := (q % b) * a + n % a;
    MulMonotone(q % b + 1, b, a);
    MulNext(q % b, a);
    assert n == (q / b) * (a * b) + r;
    DivideUnique(n, a * b, q / b, r);
  }
}
