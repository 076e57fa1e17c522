/** Divisibility facts about products that the layout and stride proofs share. */
module Arithmetic {

  lemma {:induction false} ProductAtLeast(x: int, a: int)
    requires x >= 1 && a > 0
    ensures x * a >= a
    decreases x
  {
    if x > 1 {
      ProductAtLeast(x - 1, a);
      Distribute(x - 1, 1, a);
    }
  }

  lemma Distribute(x: int, y: int, a: int)
    ensures (x + y) * a == x * a + y * a
  {
  }

  lemma OnlyZeroFits(d: int, a: int)
    requires a > 0 && -a < d * a < a
    ensures d == 0
  {
    if d >= 1 {
      ProductAtLeast(d, a);
    } else if d <= -1 {
      ProductAtLeast(-d, a);
    }
  }

  /** Quotient and remainder are unique. */
  lemma QuotientUnique(n: int, a: int, q: int, r: int)
    requires a > 0 && n == q * a + r && 0 <= r < a
    ensures n / a == q && n % a == r
  {
    var d := q - n / a;
    Distribute(q, -(n / a), a);
    assert n == (n / a) * a + n % a;
    assert d * a == n % a - r;
    OnlyZeroFits(d, a);
  }

  lemma MultipleModulo(k: int, a: int)
    requires a > 0
    ensures (k * a) % a == 0 && (k * a) / a == k
  {
    QuotientUnique(k * a, a, k, 0);
  }

  lemma SumModulo(m: int, n: int, a: int)
    requires a > 0 && m % a == 0 && n % a == 0
    ensures (m + n) % a == 0
  {
    assert m == (m / a) * a + m % a && n == (n / a) * a + n % a;
    Distribute(m / a, n / a, a);
    MultipleModulo(m / a + n / a, a);
  }

  lemma ScaleModulo(m: int, k: int, a: int)
    requires a > 0 && m % a == 0
    ensures (m * k) % a == 0
  {
    var q := m / a;
    assert m == q * a;
    assert m * k == (q * k) * a by { Associate(q, a, k); }
    MultipleModulo(q * k, a);
  }

  lemma Associate(x: int, y: int, z: int)
    ensures (x * y) * z == (x * z) * y
  {
  }

  lemma ModuloTransitive(n: int, b: int, a: int)
    requires a > 0 && b > 0 && n % b == 0 && b % a == 0
    ensures n % a == 0
  {
    var q := n / b;
    assert n == q * b;
    ScaleModulo(b, q, a);
  }

  predicate PowerOfTwo(n: nat) {
    n == 1 || (n > 1 && n % 2 == 0 && PowerOfTwo(n / 2))
  }

  /** A power of two divides every power of two that is not smaller. */
  lemma {:induction false} PowerDivides(a: nat, b: nat)
    requires PowerOfTwo(a) && PowerOfTwo(b) && a <= b
    ensures b % a == 0
    decreases a
  {
    if a == 1 {
      assert b == b * 1;
      MultipleModulo(b, 1);
    } else {
      PowerDivides(a / 2, b / 2);
      var q := (b / 2) / (a / 2);
      assert b / 2 == q * (a / 2);
      assert b == q * a by { assert b == 2 * (b / 2) && a == 2 * (a / 2); Associate(q, a / 2, 2); }
      MultipleModulo(q, a);
    }
  }
}
