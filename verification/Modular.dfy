/** Facts about remainders that the solver does not find unaided. */
module Modular {
  lemma Multiples(d: int, n: int)
    requires n >= 0
    ensures d >= 1 ==> d * n >= n
    ensures d <= -1 ==> d * n <= -n
  {
  }

  lemma MultiplyMonotone(a: int, b: int, n: int)
    requires a <= b && n >= 0
    ensures a * n <= b * n
  {
    Multiples(b - a, n);
    assert b * n == a * n + (b - a) * n;
  }

  lemma RemainderUnique(p: int, n: nat, q: int, r: nat)
    requires p == q * n + r && r < n
    ensures p % n == r && p / n == q
  {
    var d := p / n - q;
    assert p == (p / n) * n + p % n;
    assert d * n == r - p % n;
    Multiples(d, n);
  }

  /** Numbers less than n apart with the same remainder are equal. */
  lemma SameRemainder(a: int, b: int, n: int)
    requires n > 0
    ensures a % n == b % n && a < b + n && b < a + n ==> a == b
  {
    var d := a / n - b / n;
    assert a == (a / n) * n + a % n && b == (b / n) * n + b % n;
    assert a % n == b % n ==> a - b == d * n;
    Multiples(d, n);
  }

  lemma AddMultiple(a: int, q: int, n: nat)
    requires n > 0
    ensures (a + q * n) % n == a % n && (a + q * n) / n == a / n + q
  {
    assert a == (a / n) * n + a % n;
    assert a + q * n == (a / n + q) * n + a % n;
    RemainderUnique(a + q * n, n, a / n + q, a % n);
  }

  /** Reducing a summand first does not change the remainder. */
  lemma ReduceSummand(b: int, d: int, n: nat)
    requires n > 0
    ensures (b + d % n) % n == (b + d) % n
  {
    assert d == (d / n) * n + d % n;
    assert b + d == (b + d % n) + (d / n) * n;
    AddMultiple(b + d % n, d / n, n);
  }

  /** A short distance is exact even if one end is known only modulo n. */
  lemma ShortDistance(a: int, b: int, n: nat)
    requires 0 <= a - b < n
    ensures (a - b % n) % n == a - b
  {
    assert b == (b / n) * n + b % n;
    RemainderUnique(a - b % n, n, b / n, a - b);
  }

  /** The remainder of the successor. */
  lemma Successor(k: nat, n: nat)
    requires n > 0
    ensures (k + 1) % n == if k % n == n - 1 then 0 else k % n + 1
    ensures (k + 1) / n == if k % n == n - 1 then k / n + 1 else k / n
  {
    assert k == (k / n) * n + k % n;
    if k % n == n - 1 {
      assert k + 1 == (k / n + 1) * n + 0;
      RemainderUnique(k + 1, n, k / n + 1, 0);
    } else {
      RemainderUnique(k + 1, n, k / n, k % n + 1);
    }
  }

  lemma DivideExactly(n: int, m: nat)
    requires m > 0
    ensures n == m * (n / m) + n % m && 0 <= n % m < m
  {
  }

  lemma OneMore(m: int, a: int)
    ensures m * (a + 1) == m * a + m
  {
  }

  lemma DividesTransitive(n: nat, a: nat, b: nat)
    requires a > 0 && b > 0 && n % a == 0 && a % b == 0
    ensures n % b == 0
  {
    var q, r := n / a, a / b;
    DivideExactly(n, a);
    DivideExactly(a, b);
    calc {
      n;
      a * q;
      (b * r) * q;
      (r * q) * b;
    }
    RemainderUnique(n, b, r * q, 0);
  }

  /** Two multiples of p, one below the other, are at least p apart. */
  lemma MultiplesApart(a: nat, b: nat, p: nat)
    requires p > 0 && a % p == 0 && b % p == 0 && a < b
    ensures a + p <= b && (a + p) % p == 0
  {
    DivideExactly(a, p);
    DivideExactly(b, p);
    AddMultiple(a, 1, p);
    var d := b / p - a / p;
    assert b - a == d * p by {
      assert p * (b / p) - p * (a / p) == d * p;
    }
    Multiples(d, p);
  }
}
