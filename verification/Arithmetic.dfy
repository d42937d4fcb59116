/** Multiplication and division by a variable, in the few forms the address and frame arithmetic needs. */
module Arithmetic {

  function Min(a: int, b: int): int { if a <= b then a else b }

  /** Block number `x` of size `n` ends before block `y` starts. */
  lemma {:induction false} BlockOrder(x: int, y: int, n: nat)
    requires x < y
    ensures x * n + n <= y * n
    decreases y - x
  {
    assert y * n == (y - 1) * n + n;
    if x < y - 1 { BlockOrder(x, y - 1, n); }
  }

  lemma DigitsUnique(a: nat, b: nat, c: nat, d: nat, n: nat)
    requires b < n && d < n && a * n + b == c * n + d
    ensures a == c && b == d
  {
    if a < c { BlockOrder(a, c, n); }
    if c < a { BlockOrder(c, a, n); }
  }

  lemma Division(x: nat, n: nat)
    requires n > 0
    ensures x == x / n * n + x % n && x % n < n
  {
  }

  /** Slot `i` of the `n / size` that fit in a block of `n` bytes. */
  lemma SlotFits(i: nat, size: nat, n: nat)
    requires size > 0 && i < n / size
    ensures i * size + size <= n
  {
    BlockOrder(i, n / size, size);
    Division(n, size);
  }

  lemma QuotientBelow(x: nat, n: nat, k: nat)
    requires n > 0
    ensures x / n < k <==> x < k * n
  {
    Division(x, n);
    if x / n < k { BlockOrder(x / n, k, n); } else if k < x / n { BlockOrder(k, x / n, n); }
  }

  lemma Product(a: nat, b: nat, c: nat)
    ensures a * (b * c) == a * b * c
  {
  }

  lemma Multiple(a: nat, n: nat)
    requires n > 0
    ensures a * n / n == a && a * n % n == 0
  {
    Division(a * n, n);
    DigitsUnique(a * n / n, a * n % n, a, 0, n);
  }

  lemma Scale(a: nat, b: nat, n: nat)
    requires a <= b
    ensures n * a <= n * b
  {
    if a < b { assert (b - a) * n >= 0 && n * b == n * a + n * (b - a); }
  }

  lemma Times(n: nat, size: nat)
    requires n > 0
    ensures n * size == (n - 1) * size + size
  {
  }

  lemma DivIs(x: nat, q: nat, r: nat, n: nat)
    requires r < n && x == q * n + r
    ensures x / n == q && x % n == r
  {
    Division(x, n);
    DigitsUnique(x / n, x % n, q, r, n);
  }

  lemma Recombine(y: nat, b: nat, z: nat, a: nat)
    ensures (y * b + z) * a == y * (a * b) + z * a
  {
    assert (y * b + z) * a == y * b * a + z * a;
    Product(y, b, a);
    assert a * b == b * a;
  }

  /** A digit below `b` and a remainder below `a` make a number below `a * b`. */
  lemma InnerFits(z: nat, b: nat, r: nat, a: nat)
    requires z < b && r < a
    ensures z * a + r < a * b
  {
    BlockOrder(z, b, a);
    assert a * b == b * a;
  }

  /** `x / a / b` in terms of its digits. */
  lemma NestedDigits(x: nat, a: nat, b: nat, y: nat, z: nat, r: nat)
    requires z < b && r < a && x == (y * b + z) * a + r
    ensures a * b > 0 && x / (a * b) == y
  {
    InnerFits(z, b, r, a);
    Recombine(y, b, z, a);
    DivIs(x, y, z * a + r, a * b);
  }

  lemma NestedDivision(x: nat, a: nat, b: nat)
    requires a > 0 && b > 0
    ensures a * b > 0 && x / (a * b) == x / a / b
  {
    var q, r := x / a, x % a;
    Division(x, a);
    var y, z := q / b, q % b;
    Division(q, b);
    NestedDigits(x, a, b, y, z, r);
  }

  /** The last of `a * b` things in groups of `a`. */
  lemma LastOf(a: nat, b: nat)
    requires a > 0 && b > 0
    ensures a * b > 0 && (a * b - 1) / a == b - 1 && (a * b - 1) % a == a - 1
  {
    InnerFits(b - 1, b, a - 1, a);
    Times(b, a);
    assert a * b == b * a;
    DivIs(a * b - 1, b - 1, a - 1, a);
  }
}
