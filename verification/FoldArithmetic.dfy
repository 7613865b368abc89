/** Integers modulo powers of two, and how far folding them in 64-bit words agrees with that. */
module FoldArithmetic {
  import opened Powers
  import opened UseLists

  predicate IsArithmetic(op: Op) {
    op.Add? || op.Sub? || op.Mul?
  }

  function Apply(op: Op, a: int, b: int): int
    requires IsArithmetic(op)
  {
    match op
    case Add => a + b
    case Sub => a - b
    case Mul => a * b
  }

  /** What the instruction means: arithmetic modulo 2 to its width. */
  function Exact(op: Op, width: nat, a: nat, b: nat): (r: nat)
    requires IsArithmetic(op)
    ensures r < Pow2(width)
  {
    ModBounds(Apply(op, a, b), Pow2(width));
    Apply(op, a, b) % Pow2(width)
  }

  const WORD := Pow2(64)

  /** What the pass computes: the low words are combined in 64 bits and the result cut down to the width. */
  function Folded(op: Op, width: nat, a: nat, b: nat): (r: nat)
    requires IsArithmetic(op)
    ensures r < Pow2(width)
  {
    ModBounds(Apply(op, a % WORD, b % WORD) % WORD, Pow2(width));
    Apply(op, a % WORD, b % WORD) % WORD % Pow2(width)
  }

  /** Cutting down twice. */
  lemma RemainderOfRemainder(x: int, m: nat, k: nat)
    requires m >= 1 && k >= 1 && m * k >= 1
    ensures x % (m * k) % m == x % m
  {
    var q := x / (m * k);
    assert x == x % (m * k) + m * k * q;
    assert m * k * q == m * (k * q);
    SameRemainder(x, x % (m * k), m, k * q);
  }

  lemma RemaindersCombine(op: Op, a: int, b: int, m: nat)
    requires IsArithmetic(op) && m >= 1
    ensures Apply(op, a % m, b % m) % m == Apply(op, a, b) % m
  {
    var p, q := a / m, b / m;
    var c, d := a % m, b % m;
    assert a == c + m * p && b == d + m * q;
    match op
    case Add =>
      assert m * (p + q) == m * p + m * q;
      SameRemainder(a + b, c + d, m, p + q);
    case Sub =>
      assert m * (p - q) == m * p - m * q;
      SameRemainder(a - b, c - d, m, p - q);
    case Mul =>
      Product(c, d, m, p, q);
      SameRemainder(a * b, c * d, m, c * q + d * p + m * p * q);
  }

  /** What the pass computes, for each opcode. */
  lemma FoldedIs(op: Op, width: nat, a: nat, b: nat)
    requires IsArithmetic(op)
    ensures op == Op.Add ==> Folded(op, width, a, b) == (a + b) % Pow2(64) % Pow2(width)
    ensures op == Op.Sub ==> Folded(op, width, a, b) == (a - b) % Pow2(64) % Pow2(width)
    ensures op == Op.Mul ==> Folded(op, width, a, b) == a * b % Pow2(64) % Pow2(width)
  {
    hide Pow2;
    RemaindersCombine(op, a, b, WORD);
  }

  /** Up to 64 bits the words of the machine do not show. */
  lemma NarrowIs(op: Op, width: nat, a: nat, b: nat)
    requires IsArithmetic(op) && width <= 64
    ensures op == Op.Add ==> Folded(op, width, a, b) == (a + b) % Pow2(width)
    ensures op == Op.Sub ==> Folded(op, width, a, b) == (a - b) % Pow2(width)
    ensures op == Op.Mul ==> Folded(op, width, a, b) == a * b % Pow2(width)
  {
    hide Pow2;
    FoldedIs(op, width, a, b);
    PowersMultiply(width, 64 - width);
    RemainderOfRemainder(a + b, Pow2(width), Pow2(64 - width));
    RemainderOfRemainder(a - b, Pow2(width), Pow2(64 - width));
    RemainderOfRemainder(a * b, Pow2(width), Pow2(64 - width));
  }

  lemma Product(c: int, d: int, m: int, p: int, q: int)
    ensures (c + m * p) * (d + m * q) == c * d + m * (c * q + d * p + m * p * q)
  {
    var x, y := m * p, m * q;
    assert (c + x) * (d + y) == c * d + c * y + x * d + x * y;
    assert c * y == m * (c * q) && x * d == m * (d * p);
    assert x * y == m * (m * p * q) by {
      assert x * y == m * (p * y) && p * y == m * p * q;
    }
    var s, t, u := c * q, d * p, m * p * q;
    assert m * (s + t + u) == m * s + m * t + m * u;
  }

  /** Folding is exact up to 64 bits; above, exactly when the true result fits into 64. */
  lemma FoldingIsExact(op: Op, width: nat, a: nat, b: nat)
    requires IsArithmetic(op)
    ensures Folded(op, width, a, b) == Exact(op, width, a, b) <==> width <= 64 || Exact(op, width, a, b) < WORD
  {
    hide Pow2, Apply;
    var x := Apply(op, a, b);
    var p := Pow2(width);
    RemaindersCombine(op, a, b, WORD);
    if width <= 64 {
      PowersMultiply(width, 64 - width);
      RemainderOfRemainder(x, p, Pow2(64 - width));
    } else {
      PowersMultiply(64, width - 64);
      RemainderOfRemainder(x, WORD, Pow2(width - 64));
      ModBounds(x, WORD);
      Fits(WORD, Pow2(width - 64));
      SmallRemainder(x % WORD, p);
      if x % p < WORD {
        SmallRemainder(x % p, WORD);
      }
    }
  }

  lemma Fits(m: nat, k: nat)
    requires k >= 1
    ensures m <= m * k
  {
  }

  /** For 128 bits it is not: 2 to the 63 doubled comes out as zero. */
  lemma FoldingIsInexactAt128()
    ensures Folded(Op.Add, 128, Pow2(63), Pow2(63)) != Exact(Op.Add, 128, Pow2(63), Pow2(63))
  {
    hide Pow2;
    assert Pow2(64) == 2 * Pow2(63) by { PowersMultiply(1, 63); PowerOne(); }
    PowersMultiply(64, 64);
    assert Pow2(64) < Pow2(64) * Pow2(64) by {
      PowersMultiply(1, 63);
      PowerOne();
      Fits(Pow2(64), Pow2(64));
      Grows(Pow2(64));
    }
    SmallRemainder(Pow2(64), Pow2(128));
    FoldingIsExact(Op.Add, 128, Pow2(63), Pow2(63));
  }

  lemma Grows(m: nat)
    requires m >= 2
    ensures m < m * m
  {
    assert m * m >= 2 * m;
  }
}
