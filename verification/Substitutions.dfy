/** The abbreviations of section 5.3.5 of the Itanium C++ ABI: S_, S0_, S1_ and so on in base 36. */
module Substitutions {
  import opened Numerals

  function Code(index: nat): string {
    if index == 0 then "S_" else "S" + Numeral(index - 1, 36) + "_"
  }

  /** Different entities are abbreviated differently. */
  lemma CodeIsInjective(i: nat, j: nat)
    requires Code(i) == Code(j)
    ensures i == j
  {
    hide Numeral;
    assert |Code(i)| == if i == 0 then 2 else |Numeral(i - 1, 36)| + 2;
    assert |Code(j)| == if j == 0 then 2 else |Numeral(j - 1, 36)| + 2;
    if i > 0 && j > 0 {
      assert Numeral(i - 1, 36) == Code(i)[1..|Code(i)| - 1];
      assert Numeral(j - 1, 36) == Code(j)[1..|Code(j)| - 1];
      NumeralIsInjective(i - 1, j - 1, 36);
    }
  }

  /** An abbreviation is S, nothing for the first and else a numeral in base 36 of one less than the index, and an
    * underscore. */
  lemma CodeIs(index: nat)
    ensures var s := Code(index);
      |s| >= 2 && s[0] == 'S' && s[|s| - 1] == '_'
      && if index == 0 then |s| == 2 else IsNumeral(s[1..|s| - 1], 36) && Value(s[1..|s| - 1], 36) == index - 1
  {
    hide Numeral, IsNumeral, Value;
    if index > 0 {
      NumeralValue(index - 1, 36);
      assert Code(index)[1..|Code(index)| - 1] == Numeral(index - 1, 36);
    }
  }

  function Reversed(s: string): string {
    if s == "" then "" else Reversed(s[1..]) + [s[0]]
  }

  lemma {:induction false} ReversedAppend(s: string, c: char)
    ensures Reversed(s + [c]) == [c] + Reversed(s)
  {
    if s == "" {
      assert s + [c] == [c];
    } else {
      assert (s + [c])[0] == s[0] && (s + [c])[1..] == s[1..] + [c];
      ReversedAppend(s[1..], c);
    }
  }

  /** The digits are collected lowest first and turned round at the end. */
  method Encode(index: nat) returns (s: string)
    ensures s == Code(index)
  {
    hide Digit, Reversed;
    if index == 0 {
      return "S_";
    }
    var v := index - 1;
    if v < 36 {
      return "S" + [Digit(v)] + "_";
    }
    var buffer := "";
    assert Reversed("") == "" by { NothingReversed(); }
    while v > 0
      invariant 0 <= v
      invariant (if v == 0 then "" else Numeral(v, 36)) + Reversed(buffer) == Numeral(index - 1, 36)
    {
      ReversedAppend(buffer, Digit(v % 36));
      buffer := buffer + [Digit(v % 36)];
      v := v / 36;
    }
    s := "S" + Reversed(buffer);
    s := s + "_";
  }

  lemma NothingReversed()
    ensures Reversed("") == ""
  {
  }
}
