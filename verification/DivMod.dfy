/**
 Facts about Euclidean quotient and remainder that the index arithmetic of the
 transmit chain rests on.  Each is stated for explicit arguments, so that no
 quantifier over products reaches the solver.
 */
module DivMod {

  lemma Scale(x: int, y: int, n: int)
    requires 0 <= n && x <= y
    ensures x * n <= y * n
  {
    var d := y - x;
    assert 0 <= d * n;
    assert y * n == (x + d) * n == x * n + d * n;
  }

  lemma Distribute(x: int, y: int, n: int)
    ensures (x + y) * n == x * n + y * n
    ensures (x - y) * n == x * n - y * n
  {
  }

  lemma Associate(x: int, y: int, z: int)
    ensures x * (y * z) == (x * y) * z
  {
  }

  lemma Split(a: int, b: int)
    requires 0 < b
    ensures a == (a / b) * b + a % b
    ensures 0 <= a % b < b
    ensures 0 <= a ==> 0 <= a / b
  {
  }

  /** A multiple that is smaller than its unit is zero. */
  lemma SmallMultiple(d: int, b: int)
    requires 0 < b
    ensures d >= 1 ==> d * b >= b
    ensures d <= -1 ==> d * b <= -b
  {
    if d >= 1 {
      Scale(1, d, b);
    }
    if d <= -1 {
      Scale(d, -1, b);
    }
  }

  /** A quotient and remainder within range are the quotient and remainder. */
  lemma Unique(a: int, b: int, q: int, r: int)
    requires 0 < b
    requires a == q * b + r && 0 <= r < b
    ensures a / b == q && a % b == r
  {
    var p, t := a / b, a % b;
    Split(a, b);
    Distribute(p, q, b);
    SmallMultiple(p - q, b);
  }

  lemma MultipleIsDivisible(a: int, n: int)
    requires 0 < n
    ensures (a * n) % n == 0 && (a * n) / n == a
  {
    Unique(a * n, n, a, 0);
  }

  /** The quotient of a number below c * r by c is below r. */
  lemma QuotientBound(k: int, c: int, r: int)
    requires 0 < c && 0 <= k < c * r
    ensures 0 <= k / c < r
  {
    var q, t := k / c, k % c;
    Split(k, c);
    Distribute(q, r, c);
    SmallMultiple(q - r, c);
    SmallMultiple(q, c);
    assert c * r == r * c;
  }

  lemma Recombine(q: int, m: int, t: int, s: int, u: int)
    ensures (q * m + t) * s + u == q * (s * m) + (t * s + u)
  {
  }

  lemma ProductPositive(s: int, m: int)
    requires 0 < s && 0 < m
    ensures 0 < s * m
  {
    Scale(1, m, s);
  }

  /** Dividing by s and then by m is dividing by s * m. */
  lemma QuotientOfQuotient(k: int, s: int, m: int)
    requires 0 < s && 0 < m
    ensures 0 < s * m
    ensures k / (s * m) == (k / s) / m
  {
    ProductPositive(s, m);
    var b, u := k / s, k % s;
    var q, t := b / m, b % m;
    Split(k, s);
    Split(b, m);
    Recombine(q, m, t, s, u);
    Scale(t, m - 1, s);
    Scale(0, t, s);
    Distribute(m, 1, s);
    Unique(k, s * m, q, t * s + u);
  }

  /** Positions that share an s-block share every coarser block. */
  lemma SameCoarserBlock(i: int, j: int, s: int, b: int)
    requires 0 < s && 0 < b && b % s == 0
    requires i / s == j / s
    ensures i / b == j / b
  {
    ExactFactor(b, s);
    var m := b / s;
    QuotientOfQuotient(i, s, m);
    QuotientOfQuotient(j, s, m);
    assert b == s * m;
  }

  /** A common factor of dividend and divisor cancels. */
  lemma CancelFactor(c: int, k: int, r: int)
    requires 0 < c && 0 < r
    ensures 0 < c * r
    ensures c * k / (c * r) == k / r
  {
    ProductPositive(c, r);
    var q, t := k / r, k % r;
    Split(k, r);
    Scale(t, r - 1, c);
    Scale(0, t, c);
    Distribute(r, 1, c);
    FactorOut(c, q, r, t);
    Unique(c * k, c * r, q, c * t);
  }

  lemma FactorOut(c: int, q: int, r: int, t: int)
    ensures c * (q * r + t) == q * (c * r) + c * t
  {
  }

  /** Adding a multiple of the modulus changes nothing. */
  lemma AddMultiple(a: int, b: int, n: int)
    requires 0 < n
    ensures (a + b * n) % n == a % n
    ensures (a + b * n) / n == a / n + b
  {
    var q, r := a / n, a % n;
    Split(a, n);
    Distribute(q, b, n);
    Unique(a + b * n, n, q + b, r);
  }

  /** A reduction inside a sum can be postponed. */
  lemma ReduceInside(a: int, b: int, n: int)
    requires 0 < n
    ensures (a % n + b) % n == (a + b) % n
  {
    var q, r := a / n, a % n;
    Split(a, n);
    AddMultiple(r + b, q, n);
  }

  lemma DifferenceOfResidues(x: int, y: int, n: int)
    requires 0 < n
    ensures (y % n - x % n) % n == (y - x) % n
  {
    var q, r := x / n, x % n;
    Split(x, n);
    ReduceInside(y, -r, n);
    assert y - x == (y - r) + (-q) * n;
    AddMultiple(y - r, -q, n);
  }

  /** Rotating by b and then back by b is the identity on residues. */
  lemma RotateBack(a: int, b: int, n: int)
    requires 0 <= a < n
    ensures ((a + b) % n - b) % n == a
    ensures ((a - b) % n + b) % n == a
  {
    ReduceInside(a + b, -b, n);
    ReduceInside(a - b, b, n);
    Unique(a, n, 0, a);
  }

  /** The factor left when s divides r. */
  lemma ExactFactor(r: int, s: int)
    requires 0 < s && 0 < r && r % s == 0
    ensures 0 < r / s && r == (r / s) * s
  {
    Split(r, s);
    SmallMultiple(r / s, s);
  }
}
