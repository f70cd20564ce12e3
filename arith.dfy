/** Facts about Euclidean division by positive constants, used to relate
    the C shifts and masks (`>> k`, `& (2^k - 1)`) to `/` and `%`. */
module Arith {

  /** A positive multiple of a positive number is at least that number. */
  lemma MulAtLeast(m: int, d: int)
    requires m > 0 && d >= 1
    ensures m * d >= m
  {
    if d > 1 {
      MulAtLeast(m, d - 1);
      assert m * d == m * (d - 1) + m;
    }
  }

  /** Quotient and remainder are determined by `n == m * q + r`, `0 <= r < m`. */
  lemma DivModUnique(n: int, m: int, q: int, r: int)
    requires m > 0 && 0 <= r < m && n == m * q + r
    ensures n / m == q && n % m == r
  {
    var q', r' := n / m, n % m;
    assert n == m * q' + r';
    var d := q - q';
    assert m * d == r' - r by {
      assert m * q - m * q' == m * (q - q');
    }
    if d >= 1 {
      MulAtLeast(m, d);
    } else if d <= -1 {
      MulAtLeast(m, -d);
    }
    assert d == 0;
  }

  /** `(n / a) / b == n / (a * b)` and the remainders combine. */
  lemma DivDiv(n: nat, a: nat, b: nat)
    requires a > 0 && b > 0
    ensures a * b > 0
    ensures n / a / b == n / (a * b)
    ensures n % (a * b) == a * ((n / a) % b) + n % a
  {
    var q1, r1 := n / a, n % a;
    var q2, r2 := q1 / b, q1 % b;
    MulAtLeast(a, b);
    var ab := a * b;
    assert n == a * q1 + r1;
    assert q1 == b * q2 + r2;
    assert a * q1 == a * (b * q2) + a * r2;
    assert a * (b * q2) == ab * q2;
    assert n == ab * q2 + (a * r2 + r1);
    assert a * r2 + r1 < ab by {
      assert a * r2 + a == a * (r2 + 1);
      assert r2 + 1 <= b;
      MulMono(a, r2 + 1, b);
    }
    DivModUnique(n, ab, q2, a * r2 + r1);
  }

  /** The quotient of a natural number by a positive one lies between 0 and the number. */
  lemma DivBounds(r: nat, p: int)
    requires p > 0
    ensures 0 <= r / p <= r
  {
    var q := r / p;
    assert r == p * q + r % p;
    if q < 0 {
      MulAtLeast(p, -q);
    } else if q > r {
      MulAtLeast(q, p);
    }
  }

  /** The remainder of a natural number by a positive one is below both. */
  lemma ModBounds(n: nat, p: int)
    requires p > 0
    ensures 0 <= n % p < p && n % p <= n
  {
    DivBounds(n, p);
    var q := n / p;
    assert n == p * q + n % p;
    if q >= 1 {
      MulAtLeast(p, q);
    }
  }

  /** Multiplication by a positive number is monotone. */
  lemma MulMono(m: int, x: int, y: int)
    requires m > 0 && x <= y
    ensures m * x <= m * y
  {
    if x < y {
      MulAtLeast(m, y - x);
      assert m * y - m * x == m * (y - x);
    }
  }

  /** Splitting a remainder by `2m` at bit position `m`: the bit there and what is below. */
  lemma ModDouble(n: nat, m: nat)
    requires m > 0
    ensures (n % (2 * m)) / m == (n / m) % 2
    ensures (n % (2 * m)) % m == n % m
    ensures n % (2 * m) == m * ((n / m) % 2) + n % m
  {
    DivDiv(n, m, 2);
    assert m * 2 == 2 * m;
    var r := n % (2 * m);
    DivModUnique(r, m, (n / m) % 2, n % m);
  }
}
