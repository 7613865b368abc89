/** Powers of two, and remainders. */
module Powers {
  function Pow2(n: nat): (p: nat)
    ensures p >= 1
  {
    if n == 0 then 1 else 2 * Pow2(n - 1)
  }

  lemma ModBounds(x: int, m: nat)
    requires m >= 1
    ensures 0 <= x % m < m
  {
  }

  lemma SameRemainder(x: int, y: int, m: nat, k: int)
    requires m >= 1 && x == y + m * k
    ensures x % m == y % m
  {
    var d := x / m - y / m - k;
    assert x == x / m * m + x % m && y == y / m * m + y % m;
    assert m * d == y % m - x % m by {
      assert m * d == m * (x / m) - m * (y / m) - m * k;
    }
    Multiple(m, d);
  }

  lemma Multiple(m: nat, d: int)
    ensures d > 0 ==> m * d >= m
    ensures d < 0 ==> m * d + m <= 0
  {
  }

  lemma {:induction false} PowersMultiply(a: nat, b: nat)
    ensures Pow2(a + b) == Pow2(a) * Pow2(b)
  {
    if a > 0 {
      PowersMultiply(a - 1, b);
      assert 2 * Pow2(a - 1) * Pow2(b) == 2 * (Pow2(a - 1) * Pow2(b));
    }
  }

  lemma SmallRemainder(x: nat, m: nat)
    requires x < m
    ensures x % m == x
  {
  }

  lemma QuotientShift(d: nat, a: nat, t: nat)
    requires a >= 1
    ensures (d + a * t) / a == d / a + t
  {
    var x, y := (d + a * t) / a, d / a + t;
    SameRemainder(d + a * t, d, a, t);
    assert d + a * t == a * x + (d + a * t) % a && d == a * (d / a) + d % a;
    assert a * y == a * (d / a) + a * t;
    assert a * (x - y) == a * x - a * y;
    Multiple(a, x - y);
  }

  lemma PowerOne()
    ensures Pow2(1) == 2
  {
    assert Pow2(0) == 1;
  }
}
