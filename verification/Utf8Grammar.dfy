/** The grammar in section 4 of RFC 3629, and that it describes what the encoding table of section 3 makes. */
module Utf8Grammar {
  import opened Bytes
  import opened Utf8

  /** UTF8-tail. */
  predicate IsTail(b: Byte) {
    0x80 <= b <= 0xBF
  }

  /** UTF8-3. */
  predicate IsThree(a: Byte, b: Byte, c: Byte) {
    IsTail(c)
    && if a == 0xE0 then 0xA0 <= b <= 0xBF
       else if a == 0xED then 0x80 <= b <= 0x9F
       else (0xE1 <= a <= 0xEC || 0xEE <= a <= 0xEF) && IsTail(b)
  }

  /** UTF8-4. */
  predicate IsFour(a: Byte, b: Byte, c: Byte, d: Byte) {
    IsTail(c) && IsTail(d)
    && if a == 0xF0 then 0x90 <= b <= 0xBF
       else if a == 0xF4 then 0x80 <= b <= 0x8F
       else 0xF1 <= a <= 0xF3 && IsTail(b)
  }

  /** UTF8-char. */
  predicate IsChar(s: seq<Byte>) {
    match |s|
    case 1 => s[0] <= 0x7F
    case 2 => 0xC2 <= s[0] <= 0xDF && IsTail(s[1])
    case 3 => IsThree(s[0], s[1], s[2])
    case 4 => IsFour(s[0], s[1], s[2], s[3])
    case _ => false
  }

  lemma CharIsShaped(s: seq<Byte>)
    requires IsChar(s)
    ensures Shaped(s) && Minimal(|s|, Payload(s))
  {
  }

  lemma ThreeIsChar(c: Scalar)
    requires 0x800 <= c < 0x1_0000
    ensures IsChar(Encode(c))
  {
    assert c / 0x40 == c / 0x1000 * 0x40 + c / 0x40 % 0x40;
    assert c < 0x1000 ==> c / 0x1000 == 0 && c / 0x40 >= 0x20;
    assert !IsSurrogate(c);
    assert 0xD000 <= c < 0xE000 ==> c < 0xD800 && c / 0x1000 == 0xD && c / 0x40 < 0x360;
    assert c >= 0xE000 ==> 0xE <= c / 0x1000 <= 0xF;
  }

  lemma FourIsChar(c: Scalar)
    requires c >= 0x1_0000
    ensures IsChar(Encode(c))
  {
    assert c / 0x1000 == c / 0x4_0000 * 0x40 + c / 0x1000 % 0x40;
    assert c < 0x4_0000 ==> c / 0x4_0000 == 0 && c / 0x1000 >= 0x10;
    assert c >= 0x10_0000 ==> c / 0x4_0000 == 4 && c / 0x1000 < 0x110;
    assert 0x4_0000 <= c < 0x10_0000 ==> 1 <= c / 0x4_0000 <= 3;
  }

  lemma EncodingIsChar(c: Scalar)
    ensures IsChar(Encode(c))
  {
    if c >= 0x1_0000 {
      FourIsChar(c);
    } else if c >= 0x800 {
      ThreeIsChar(c);
    }
  }

  /** The grammar's characters are the encodings of scalar values. */
  lemma CharIff(s: seq<Byte>)
    ensures IsChar(s) <==> exists c: Scalar :: Encode(c) == s
  {
    hide Encode, IsChar, Payload;
    if IsChar(s) {
      CharIsShaped(s);
      ShapedIsEncoding(s);
      var c: Scalar := Payload(s);
      assert Encode(c) == s;
    }
    if c: Scalar :| Encode(c) == s {
      EncodingIsChar(c);
    }
  }

  /** UTF8-octets: what the validator accepts is nothing, or a character of the grammar and more of the same. */
  lemma OctetsIff(s: seq<Byte>)
    ensures WellFormed(s) <==> s == [] || exists n: nat :: n <= |s| && IsChar(s[..n]) && WellFormed(s[n..])
  {
    hide Encode, Encoded, IsChar, WellFormed;
    EmptyIsWellFormed();
    if WellFormed(s) && s != [] {
      FirstOfWellFormed(s);
      var c: Scalar :| StartsWith(s, c);
      var n := |Encode(c)|;
      assert s[..n] == Encode(c) && s == Encode(c) + s[n..];
      WellFormedFront(c, s[n..]);
      CharIff(s[..n]);
    }
    if n: nat :| n <= |s| && IsChar(s[..n]) && WellFormed(s[n..]) {
      CharIff(s[..n]);
      var c: Scalar :| Encode(c) == s[..n];
      assert s == Encode(c) + s[n..];
      WellFormedFront(c, s[n..]);
    }
  }

  // ---- Bits ----

  /** The lengths that the leading bits of a byte announce; where they announce none, the validator has 0 and
    * the codec 1. */
  lemma LeadBits(b: Byte)
    ensures var n := if b / 0x20 == 0x06 then 2 else if b / 0x10 == 0x0E then 3 else if b / 8 == 0x1E then 4 else 1;
            && ByteLength(b) == n
            && ExpectedByteCount(b) == if n == 1 && b / 0x80 != 0 then 0 else n
    ensures IsContinuationByte(b) <==> b / 0x40 == 2
  {
  }

  /** What is decoded from any bytes at all, as long as there are enough of them. */
  lemma DecodedBits(s: seq<Byte>)
    ensures |s| >= 1 && s[0] / 0x80 == 0 ==> Decode(s) == (s[0], 1)
    ensures |s| >= 2 && s[0] / 0x20 == 0x06 ==> Decode(s) == (Bits([s[0] % 0x20, s[1] % 0x40]), 2)
    ensures |s| >= 3 && s[0] / 0x10 == 0x0E ==> Decode(s) == (Bits([s[0] % 0x10, s[1] % 0x40, s[2] % 0x40]), 3)
    ensures |s| >= 4 && s[0] / 8 == 0x1E ==>
              Decode(s) == (Bits([s[0] % 8, s[1] % 0x40, s[2] % 0x40, s[3] % 0x40]), 4)
  {
    if s != [] {
      LeadBits(s[0]);
      if ByteLength(s[0]) <= |s| {
        ContinueIs(s[0] % LeadRange(ByteLength(s[0])), s[1..ByteLength(s[0])]);
      }
    }
  }

  /** Six bits each behind the first. */
  function Bits(digits: seq<nat>): int {
    match |digits|
    case 2 => 0x40 * digits[0] + digits[1]
    case 3 => 0x1000 * digits[0] + 0x40 * digits[1] + digits[2]
    case 4 => 0x4_0000 * digits[0] + 0x1000 * digits[1] + 0x40 * digits[2] + digits[3]
    case _ => 0
  }

  lemma ContinueOnce(c: nat, s: seq<Byte>)
    ensures s == [] ==> Continue(c, s) == c
    ensures s != [] ==> Continue(c, s) == Continue(c * 0x40 + s[0] % 0x40, s[1..])
  {
  }

  lemma ContinueIs(c: nat, s: seq<Byte>)
    ensures |s| == 1 ==> Continue(c, s) == 0x40 * c + s[0] % 0x40
    ensures |s| == 2 ==> Continue(c, s) == 0x1000 * c + 0x40 * (s[0] as nat % 0x40) + s[1] as nat % 0x40
    ensures |s| == 3 ==>
      Continue(c, s) == 0x4_0000 * c + 0x1000 * (s[0] as nat % 0x40) + 0x40 * (s[1] as nat % 0x40) + s[2] as nat % 0x40
  {
    hide Continue;
    ContinueOnce(c, s);
    if s != [] {
      var d: nat, t := c * 0x40 + s[0] % 0x40, s[1..];
      ContinueOnce(d, t);
      if t != [] {
        var e: nat, u := d * 0x40 + t[0] % 0x40, t[1..];
        ContinueOnce(e, u);
        if u != [] {
          ContinueOnce(e * 0x40 + u[0] % 0x40, u[1..]);
        }
      }
    }
  }

  /** The characters of the examples in section 7 of RFC 3629. */
  lemma KnownEncodings()
    ensures Encode(0x41) == [0x41] && Encode(0x2262) == [0xE2, 0x89, 0xA2] && Encode(0x391) == [0xCE, 0x91]
    ensures Encode(0xD55C) == [0xED, 0x95, 0x9C] && Encode(0x65E5) == [0xE6, 0x97, 0xA5]
    ensures Encode(0xFEFF) == [0xEF, 0xBB, 0xBF] && Encode(0x233B4) == [0xF0, 0xA3, 0x8E, 0xB4]
  {
  }
}
