/** Numbers written in base 10 and in base 36. */
module Numerals {
  predicate IsDigit(c: char) {
    '0' <= c <= '9'
  }

  function Digit(d: nat): (c: char)
    requires d < 36
    ensures d < 10 <==> IsDigit(c)
    ensures c as int < 0x80
  {
    if d < 10 then ('0' as int + d) as char else ('A' as int + d - 10) as char
  }

  lemma DigitsDiffer(a: nat, b: nat)
    requires a < 36 && b < 36 && Digit(a) == Digit(b)
    ensures a == b
  {
    assert Digit(a) as int == if a < 10 then '0' as int + a else 'A' as int + a - 10;
    assert Digit(b) as int == if b < 10 then '0' as int + b else 'A' as int + b - 10;
  }

  /** All digits but the last, and the last. */
  function Split(n: nat, base: nat): (r: (nat, nat))
    requires base in {10, 36}
    ensures r.1 < base && n == r.0 * base + r.1
    ensures n >= base ==> 0 < r.0 < n
    ensures n < base ==> r.0 == 0
  {
    if base == 10 then (n / 10, n % 10) else (n / 36, n % 36)
  }

  function Numeral(n: nat, base: nat): (s: string)
    requires base in {10, 36}
    ensures s != [] && forall k :: 0 <= k < |s| ==> s[k] as int < 0x80 && (base == 10 ==> IsDigit(s[k]))
    decreases n
  {
    var r := Split(n, base);
    if n < base then [Digit(n)] else Numeral(r.0, base) + [Digit(r.1)]
  }

  lemma NumeralParts(n: nat, base: nat)
    requires base in {10, 36}
    ensures var s := Numeral(n, base);
      s[|s| - 1] == Digit(Split(n, base).1) && s[..|s| - 1] == if n < base then "" else Numeral(Split(n, base).0, base)
  {
    hide Digit;
  }

  lemma {:induction false} NumeralIsInjective(a: nat, b: nat, base: nat)
    requires base in {10, 36} && Numeral(a, base) == Numeral(b, base)
    ensures a == b
    decreases a
  {
    hide Numeral, Digit, Split;
    NumeralParts(a, base);
    NumeralParts(b, base);
    DigitsDiffer(Split(a, base).1, Split(b, base).1);
    if a >= base && b >= base {
      NumeralIsInjective(Split(a, base).0, Split(b, base).0, base);
    }
  }

  /** What a digit or a capital letter counts. */
  function Worth(c: char): int {
    if '0' <= c <= '9' then c as int - 48 else c as int - 65 + 10
  }

  /** The number that a string of digits stands for. */
  function Value(s: string, base: nat): int {
    if s == "" then 0 else Value(s[..|s| - 1], base) * base + Worth(s[|s| - 1])
  }

  /** Digits of the base, and no zero in front of others. */
  predicate IsNumeral(s: string, base: nat) {
    && s != "" && (|s| > 1 ==> s[0] != '0')
    && forall k :: 0 <= k < |s| ==> '0' <= s[k] <= '9' || (base == 36 && 'A' <= s[k] <= 'Z')
  }

  lemma DigitWorth(d: nat)
    requires d < 36
    ensures Worth(Digit(d)) == d && (if d < 10 then '0' <= Digit(d) <= '9' else 'A' <= Digit(d) <= 'Z')
    ensures Digit(d) == '0' <==> d == 0
  {
    assert '0' as int == 48 && 'A' as int == 65;
  }

  /** A numeral stands for its number. */
  lemma {:induction false} NumeralValue(n: nat, base: nat)
    requires base in {10, 36}
    ensures Value(Numeral(n, base), base) == n && IsNumeral(Numeral(n, base), base)
    ensures Numeral(n, base)[0] == '0' <==> n == 0
    decreases n
  {
    hide Digit, Split, Worth;
    NumeralParts(n, base);
    var r, s := Split(n, base), Numeral(n, base);
    DigitWorth(r.1);
    if n < base {
      assert s[..|s| - 1] == "";
    } else {
      NumeralValue(r.0, base);
      assert s[0] == s[..|s| - 1][0];
    }
  }

  lemma WorthDigit(c: char, base: nat)
    requires base in {10, 36} && ('0' <= c <= '9' || (base == 36 && 'A' <= c <= 'Z'))
    ensures 0 <= Worth(c) < base && Digit(Worth(c)) == c && (Worth(c) == 0 <==> c == '0')
  {
    assert '0' as int == 48 && 'A' as int == 65;
  }

  lemma NumeralStep(q: nat, r: nat, base: nat)
    requires base in {10, 36} && r < base
    ensures q * base + r >= 0 && Numeral(q * base + r, base) == (if q == 0 then "" else Numeral(q, base)) + [Digit(r)]
  {
    hide Digit;
    if base == 10 {
      assert Split(q * 10 + r, 10) == (q, r);
    } else {
      assert Split(q * 36 + r, 36) == (q, r);
    }
  }

  lemma ZeroStep(q: nat, r: nat, base: nat)
    requires base in {10, 36}
    ensures q * base + r == 0 <==> q == 0 && r == 0
  {
  }

  lemma FrontIsNumeral(s: string, base: nat)
    requires IsNumeral(s, base) && |s| > 1
    ensures IsNumeral(s[..|s| - 1], base) && s[..|s| - 1] != "0"
  {
    var front := s[..|s| - 1];
    assert front[0] == s[0];
  }

  lemma ValueStep(s: string, base: nat)
    requires s != ""
    ensures Value(s, base) == Value(s[..|s| - 1], base) * base + Worth(s[|s| - 1])
    ensures |s| == 1 ==> Value(s, base) == Worth(s[0])
  {
    hide Worth;
  }

  /** And it is the only one that does. */
  lemma {:induction false} OnlyNumeral(s: string, base: nat)
    requires base in {10, 36} && IsNumeral(s, base)
    ensures Value(s, base) >= 0 && Numeral(Value(s, base), base) == s
    ensures Value(s, base) == 0 <==> s == "0"
    decreases |s|
  {
    var front, c := s[..|s| - 1], s[|s| - 1];
    WorthDigit(c, base);
    hide Digit, Worth, Numeral, Value;
    ValueStep(s, base);
    assert s == front + [c];
    if |s| == 1 {
      hide IsNumeral;
      NumeralStep(0, Worth(c), base);
      assert s == [c];
    } else {
      FrontIsNumeral(s, base);
      hide IsNumeral;
      OnlyNumeral(front, base);
      NumeralStep(Value(front, base), Worth(c), base);
      ZeroStep(Value(front, base), Worth(c), base);
    }
  }

  /** Numbers as the standard library prints them. */
  function Dec(n: nat): (s: string)
    ensures s != [] && forall k :: 0 <= k < |s| ==> IsDigit(s[k])
  {
    Numeral(n, 10)
  }

  lemma DecIsInjective(a: nat, b: nat)
    requires Dec(a) == Dec(b)
    ensures a == b
  {
    hide Numeral;
    NumeralIsInjective(a, b, 10);
  }

  /** What follows the digits does not start with one. */
  predicate EndsDigits(s: string) {
    s == [] || !IsDigit(s[0])
  }

  lemma NotLonger(x: string, y: string, r: string, q: string)
    requires forall k :: 0 <= k < |x| ==> IsDigit(x[k])
    requires EndsDigits(q) && x + r == y + q
    ensures |x| <= |y|
  {
    var i := if |y| < |x| then |y| else 0;
    assert i < |x| ==> IsDigit((x + r)[i]);
    assert i < |y + q| ==> (y + q)[i] == (x + r)[i];
  }

  lemma DecIsPrefixFree(a: nat, b: nat, r: string, q: string)
    requires EndsDigits(r) && EndsDigits(q) && Dec(a) + r == Dec(b) + q
    ensures a == b && r == q
  {
    hide Dec;
    var s := Dec(a) + r;
    NotLonger(Dec(a), Dec(b), r, q);
    NotLonger(Dec(b), Dec(a), q, r);
    assert s[..|Dec(a)|] == Dec(a) && s[|Dec(a)|..] == r;
    assert s[..|Dec(b)|] == Dec(b) && s[|Dec(b)|..] == q;
    DecIsInjective(a, b);
  }
}
