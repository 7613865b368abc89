/** UTF-8 as defined in section 3 of RFC 3629, and the validator and the codec that handle it. Masks and shifts are
  * written as remainders, quotients and sums: for a byte b, b & 0x3F is b % 0x40, and (b & 0xE0) == 0xC0 is
  * 0xC0 <= b < 0xE0. */
module Utf8 {
  import opened Bytes
  import opened Powers

  type CodePoint = c: nat | c < 0x11_0000

  predicate IsSurrogate(c: nat) {
    0xD800 <= c < 0xE000
  }

  type Scalar = c: CodePoint | !IsSurrogate(c)

  /** The encoding table of section 3. It is also applied to surrogates, for which the standard defines no encoding. */
  function Encode(c: CodePoint): (s: seq<Byte>)
    ensures 1 <= |s| <= 4
  {
    if c < 0x80 then [c]
    else if c < 0x800 then [0xC0 + c / 0x40, 0x80 + c % 0x40]
    else if c < 0x1_0000 then [0xE0 + c / 0x1000, 0x80 + c / 0x40 % 0x40, 0x80 + c % 0x40]
    else [0xF0 + c / 0x4_0000, 0x80 + c / 0x1000 % 0x40, 0x80 + c / 0x40 % 0x40, 0x80 + c % 0x40]
  }

  function Encoded(cs: seq<CodePoint>): seq<Byte> {
    if cs == [] then [] else Encode(cs[0]) + Encoded(cs[1..])
  }

  /** A concatenation of encodings of scalar values: the strings section 4 of RFC 3629 calls valid. */
  ghost predicate WellFormed(s: seq<Byte>) {
    exists cs: seq<Scalar> :: Encoded(cs) == s
  }

  ghost predicate StartsWith(s: seq<Byte>, c: Scalar) {
    Encode(c) <= s
  }

  function ExpectedByteCount(b: Byte): (n: nat)
    ensures n <= 4
  {
    if b < 0x80 then 1
    else if 0xC0 <= b < 0xE0 then 2
    else if 0xE0 <= b < 0xF0 then 3
    else if 0xF0 <= b < 0xF8 then 4
    else 0
  }

  predicate IsContinuationByte(b: Byte) {
    0x80 <= b < 0xC0
  }

  /** A lead byte and as many continuation bytes as it calls for. */
  predicate Shaped(s: seq<Byte>) {
    && 1 <= |s| == ExpectedByteCount(s[0])
    && forall k :: 1 <= k < |s| ==> IsContinuationByte(s[k])
  }

  /** b & (m - 1), for m a power of two. */
  function Low(b: nat, m: nat): (r: nat)
    requires m > 0
    ensures r < m
  {
    b % m
  }

  /** The code point in the payload bits of a lead byte and its continuation bytes. */
  function Payload(s: seq<Byte>): nat
    requires 1 <= |s| <= 4
  {
    match |s|
    case 1 => s[0]
    case 2 => Low(s[0], 0x20) * 0x40 + Low(s[1], 0x40)
    case 3 => Low(s[0], 0x10) * 0x1000 + Low(s[1], 0x40) * 0x40 + Low(s[2], 0x40)
    case _ => Low(s[0], 8) * 0x4_0000 + Low(s[1], 0x40) * 0x1000 + Low(s[2], 0x40) * 0x40 + Low(s[3], 0x40)
  }

  /** Not longer than it needs to be, not a surrogate and not past the last code point. */
  predicate Minimal(n: nat, c: nat) {
    match n
    case 1 => true
    case 2 => c >= 0x80
    case 3 => c >= 0x800 && !IsSurrogate(c)
    case _ => 0x1_0000 <= c < 0x11_0000
  }

  /** The six-bit digits of a number. */
  lemma Digits(a: nat, b: nat, d: nat)
    requires b < 0x40 && d < 0x40
    ensures (a * 0x40 + d) / 0x40 == a && (a * 0x40 + d) % 0x40 == d
    ensures var c := a * 0x1000 + b * 0x40 + d;
            c / 0x1000 == a && c / 0x40 == a * 0x40 + b && c / 0x40 % 0x40 == b && c % 0x40 == d
  {
    var c := a * 0x1000 + b * 0x40 + d;
    assert c / 0x40 == a * 0x40 + b;
    assert c / 0x1000 == c / 0x40 / 0x40;
  }

  lemma EncodingIsShaped(c: CodePoint)
    ensures Shaped(Encode(c)) && Payload(Encode(c)) == c
    ensures !IsSurrogate(c) ==> Minimal(|Encode(c)|, c)
  {
    hide Low;
    if c >= 0x1_0000 {
      ShapedFour(c);
    } else if c >= 0x800 {
      LowOf(0xE0, c / 0x1000, 0x10);
      LowOf(0x80, c / 0x40 % 0x40, 0x40);
      LowOf(0x80, c % 0x40, 0x40);
    } else if c >= 0x80 {
      LowOf(0xC0, c / 0x40, 0x20);
      LowOf(0x80, c % 0x40, 0x40);
    }
  }

  lemma ShapedFour(c: CodePoint)
    requires c >= 0x1_0000
    ensures Shaped(Encode(c)) && Payload(Encode(c)) == c
  {
    hide Low;
    LowOf(0xF0, c / 0x4_0000, 8);
    LowOf(0x80, c / 0x1000 % 0x40, 0x40);
    LowOf(0x80, c / 0x40 % 0x40, 0x40);
    LowOf(0x80, c % 0x40, 0x40);
    assert c / 0x40 == c / 0x1000 * 0x40 + c / 0x40 % 0x40;
    assert c / 0x1000 == c / 0x4_0000 * 0x40 + c / 0x1000 % 0x40;
  }

  lemma LowOf(base: nat, r: nat, m: nat)
    requires m in {8, 0x10, 0x20, 0x40} && r < m && base in {0x80, 0xC0, 0xE0, 0xF0} && base % m == 0
    ensures Low(base + r, m) == r
  {
  }

  /** A shaped, minimal sequence is the encoding of its payload. */
  lemma ShapedIsEncoding(s: seq<Byte>)
    requires Shaped(s) && Minimal(|s|, Payload(s))
    ensures Payload(s) < 0x11_0000 && !IsSurrogate(Payload(s)) && Encode(Payload(s)) == s
  {
    hide Low;
    if |s| == 1 {
    } else {
      var d: nat :| s[|s| - 1] == 0x80 + d;
      LowOf(0x80, d, 0x40);
      if |s| == 2 {
        var a: nat :| s[0] == 0xC0 + a;
        LowOf(0xC0, a, 0x20);
        Digits(a, 0, d);
      } else if |s| == 3 {
        var a: nat :| s[0] == 0xE0 + a;
        var b: nat :| s[1] == 0x80 + b;
        LowOf(0xE0, a, 0x10);
        LowOf(0x80, b, 0x40);
        Digits(a, b, d);
      } else {
        var e: nat :| s[0] == 0xF0 + e;
        var a: nat :| s[1] == 0x80 + a;
        var b: nat :| s[2] == 0x80 + b;
        FourIsEncoding(s, e, a, b, d);
      }
    }
  }

  lemma FourIsEncoding(s: seq<Byte>, e: nat, a: nat, b: nat, d: nat)
    requires e < 8 && a < 0x40 && b < 0x40 && d < 0x40
    requires s == [0xF0 + e, 0x80 + a, 0x80 + b, 0x80 + d] && Minimal(4, Payload(s))
    ensures Payload(s) < 0x11_0000 && Encode(Payload(s)) == s
  {
    hide Low;
    LowOf(0xF0, e, 8);
    LowOf(0x80, a, 0x40);
    LowOf(0x80, b, 0x40);
    LowOf(0x80, d, 0x40);
    var c := Payload(s);
    assert c == (e * 0x40 + a) * 0x1000 + b * 0x40 + d;
    Digits(e * 0x40 + a, b, d);
    Digits(e, 0, a);
    assert c / 0x4_0000 == c / 0x1000 / 0x40;
  }

  /** No encoding is the beginning of another one, nor of a string that begins with another one. */
  lemma EncodeIsPrefixFree(c: CodePoint, d: CodePoint, s: seq<Byte>)
    requires Encode(c) <= s && Encode(d) <= s
    ensures c == d
  {
    hide Encode, Payload;
    EncodingIsShaped(c);
    EncodingIsShaped(d);
    assert s[0] == Encode(c)[0] == Encode(d)[0];
    assert Encode(c) == s[..|Encode(c)|] && Encode(d) == s[..|Encode(d)|];
  }

  // ---- Strings of encodings ----

  lemma WellFormedFront(c: Scalar, s: seq<Byte>)
    ensures WellFormed(Encode(c) + s) <==> WellFormed(s)
  {
    hide Encode;
    if WellFormed(s) {
      var cs: seq<Scalar> :| Encoded(cs) == s;
      var all: seq<Scalar> := [c] + cs;
      assert all[1..] == cs;
      assert Encoded(all) == Encode(c) + s;
    }
    if WellFormed(Encode(c) + s) {
      var cs: seq<Scalar> :| Encoded(cs) == Encode(c) + s;
      assert Encode(cs[0]) <= Encoded(cs);
      EncodeIsPrefixFree(c, cs[0], Encode(c) + s);
      assert s == Encoded(cs)[|Encode(c)|..] == Encoded(cs[1..]);
      var rest: seq<Scalar> := cs[1..];
      assert Encoded(rest) == s;
    }
  }

  lemma IllFormedFront(s: seq<Byte>)
    requires s != [] && forall c: Scalar :: !StartsWith(s, c)
    ensures !WellFormed(s)
  {
    if WellFormed(s) {
      var cs: seq<Scalar> :| Encoded(cs) == s;
      assert StartsWith(s, cs[0]);
    }
  }

  lemma SurrogateIsIllFormed(c: CodePoint, s: seq<Byte>)
    requires IsSurrogate(c)
    ensures !WellFormed(Encode(c) + s)
  {
    hide Encode;
    forall d: Scalar ensures !StartsWith(Encode(c) + s, d) {
      if StartsWith(Encode(c) + s, d) {
        EncodeIsPrefixFree(c, d, Encode(c) + s);
      }
    }
    IllFormedFront(Encode(c) + s);
  }

  lemma EmptyIsWellFormed()
    ensures WellFormed([])
  {
    var none: seq<Scalar> := [];
    assert Encoded(none) == [];
  }

  /** A string is the encoding of at most one sequence of code points. */
  lemma {:induction false} EncodedIsInjective(cs: seq<CodePoint>, ds: seq<CodePoint>)
    requires Encoded(cs) == Encoded(ds)
    ensures cs == ds
  {
    hide Encode;
    if cs != [] && ds != [] {
      EncodeIsPrefixFree(cs[0], ds[0], Encoded(cs));
      assert Encoded(cs[1..]) == Encoded(cs)[|Encode(cs[0])|..] == Encoded(ds[1..]);
      EncodedIsInjective(cs[1..], ds[1..]);
    }
  }

  lemma {:induction false} EncodedAppend(cs: seq<CodePoint>, ds: seq<CodePoint>)
    ensures Encoded(cs + ds) == Encoded(cs) + Encoded(ds)
  {
    hide Encode;
    if cs == [] {
      assert cs + ds == ds;
    } else {
      assert (cs + ds)[0] == cs[0] && (cs + ds)[1..] == cs[1..] + ds;
      EncodedAppend(cs[1..], ds);
    }
  }

  // ---- The validator ----

  /** The length of the sequence at i, or 0 where the validator rejects it: the step that both validating loops
    * repeat. */
  method SequenceLength(s: seq<Byte>, i: nat) returns (n: nat)
    requires i < |s|
    ensures n > 0 ==> i + n <= |s| && exists c: Scalar :: Encode(c) == s[i..i + n]
    ensures n == 0 ==> forall c: Scalar :: !StartsWith(s[i..], c)
  {
    if s[i] < 0x80 {
      var c: Scalar := s[i];
      assert Encode(c) == s[i..i + 1];
      return 1;
    }
    hide Encode, Payload;
    ghost var tail := s[i..];
    assert tail[0] == s[i];
    forall c: Scalar | StartsWith(tail, c) ensures ShapedAndMinimal(tail, ExpectedByteCount(s[i])) {
      StartIsMinimal(tail, c);
    }
    n := ExpectedByteCount(s[i]);
    if n == 0 || n == 1 {
      return 0;
    }
    if i + n > |s| {
      return 0;
    }
    for j := 1 to n
      invariant forall k :: 1 <= k < j ==> IsContinuationByte(tail[k])
    {
      assert s[i + j] == tail[j];
      if !IsContinuationByte(s[i + j]) {
        assert tail[..n][j] == tail[j];
        return 0;
      }
    }
    assert tail[..n] == s[i..i + n];
    if !Minimal(n, Payload(s[i..i + n])) {
      return 0;
    }
    ShapedIsEncoding(s[i..i + n]);
    assert StartsWith(tail, Payload(s[i..i + n]));
  }

  predicate ShapedAndMinimal(s: seq<Byte>, n: nat) {
    1 <= n <= 4 && n <= |s| && Shaped(s[..n]) && Minimal(n, Payload(s[..n]))
  }

  lemma StartIsMinimal(s: seq<Byte>, c: Scalar)
    requires StartsWith(s, c)
    ensures ShapedAndMinimal(s, ExpectedByteCount(s[0]))
  {
    hide Encode, Payload;
    EncodingIsShaped(c);
    assert s[..|Encode(c)|] == Encode(c);
  }

  method ValidateScalar(s: seq<Byte>) returns (ok: bool)
    ensures ok <==> WellFormed(s)
  {
    hide Encode, Encoded, WellFormed;
    var i := 0;
    assert s[0..] == s;
    while i < |s|
      invariant i <= |s|
      invariant WellFormed(s) <==> WellFormed(s[i..])
    {
      var n := SequenceLength(s, i);
      if n == 0 {
        IllFormedFront(s[i..]);
        return false;
      }
      var c: Scalar :| Encode(c) == s[i..i + n];
      assert s[i..] == Encode(c) + s[i + n..];
      WellFormedFront(c, s[i + n..]);
      i := i + n;
    }
    EmptyIsWellFormed();
    assert s[i..] == [];
    return true;
  }

  /** The returned position is the end of the longest well-formed prefix. */
  method FindInvalidScalar(s: seq<Byte>) returns (p: nat)
    ensures p <= |s| && WellFormed(s[..p])
    ensures p < |s| ==> forall c: Scalar :: !StartsWith(s[p..], c)
    ensures forall q :: p < q <= |s| ==> !WellFormed(s[..q])
    ensures p == |s| <==> WellFormed(s)
  {
    hide Encode, Encoded, WellFormed;
    p := 0;
    EmptyIsWellFormed();
    assert s[..0] == [];
    while p < |s|
      invariant p <= |s| && WellFormed(s[..p])
    {
      var n := SequenceLength(s, p);
      if n == 0 {
        NothingLonger(s, p);
        assert s[..|s|] == s;
        return;
      }
      var c: Scalar :| Encode(c) == s[p..p + n];
      assert s[..p + n] == s[..p] + Encode(c);
      WellFormedBack(s[..p], c);
      p := p + n;
    }
    assert s[..p] == s;
  }

  lemma NothingLonger(s: seq<Byte>, p: nat)
    requires p < |s| && WellFormed(s[..p]) && forall c: Scalar :: !StartsWith(s[p..], c)
    ensures forall q :: p < q <= |s| ==> !WellFormed(s[..q])
  {
    hide Encode, Encoded, WellFormed;
    forall q | p < q <= |s| ensures !WellFormed(s[..q]) {
      NotLonger(s, p, q);
    }
  }

  lemma NotLonger(s: seq<Byte>, p: nat, q: nat)
    requires p < q <= |s| && WellFormed(s[..p]) && forall c: Scalar :: !StartsWith(s[p..], c)
    ensures !WellFormed(s[..q])
  {
    hide Encode, Encoded, WellFormed;
    var t := s[p..q];
    assert s[..q] == s[..p] + t;
    WellFormedTail(s[..p], t);
    assert t <= s[p..];
    NoStartInPrefix(s[p..], t);
    IllFormedFront(t);
  }

  lemma NoStartInPrefix(s: seq<Byte>, t: seq<Byte>)
    requires t <= s && forall c: Scalar :: !StartsWith(s, c)
    ensures forall c: Scalar :: !StartsWith(t, c)
  {
    hide Encode;
    forall c: Scalar ensures !StartsWith(t, c) {
      assert StartsWith(t, c) ==> StartsWith(s, c);
    }
  }

  lemma WellFormedTail(s: seq<Byte>, t: seq<Byte>)
    requires WellFormed(s)
    ensures WellFormed(s + t) <==> WellFormed(t)
  {
    var cs: seq<Scalar> :| Encoded(cs) == s;
    EncodedFront(cs, t);
  }

  lemma {:induction false} EncodedFront(cs: seq<Scalar>, t: seq<Byte>)
    ensures WellFormed(Encoded(cs) + t) <==> WellFormed(t)
  {
    hide Encode, WellFormed;
    if cs == [] {
      assert Encoded(cs) + t == t;
    } else {
      EncodedFront(cs[1..], t);
      WellFormedFront(cs[0], Encoded(cs[1..]) + t);
      assert Encoded(cs) + t == Encode(cs[0]) + (Encoded(cs[1..]) + t);
    }
  }

  lemma WellFormedBack(s: seq<Byte>, c: Scalar)
    requires WellFormed(s)
    ensures WellFormed(s + Encode(c))
  {
    hide Encode;
    var cs: seq<Scalar> :| Encoded(cs) == s;
    EncodedAppend(cs, [c]);
    var all: seq<Scalar> := cs + [c];
    assert Encoded(all) == s + Encode(c);
  }

  // ---- The codec ----

  /** The length announced by a first byte; 1 where there is none. */
  function ByteLength(b: Byte): (n: nat)
    ensures 1 <= n <= 4
  {
    if 0xC0 <= b < 0xE0 then 2 else if 0xE0 <= b < 0xF0 then 3 else if 0xF0 <= b < 0xF8 then 4 else 1
  }

  /** 0x7F >> n, plus one: the lead byte's payload is what is left when that many is divided out. */
  function LeadRange(n: nat): (m: nat)
    ensures m > 0
  {
    match n
    case 2 => 0x20
    case 3 => 0x10
    case _ => 8
  }

  function Continue(c: nat, s: seq<Byte>): nat
    decreases |s|
  {
    if s == [] then c else Continue(c * 0x40 + Low(s[0], 0x40), s[1..])
  }

  /** The code point decoded from the front of a string and how many bytes that took; nothing at all is checked. */
  function Decode(s: seq<Byte>): (r: (nat, nat))
    ensures s != [] ==> 1 <= r.1 <= |s|
  {
    if s == [] then (0, 0)
    else
      var n := ByteLength(s[0]);
      var taken := if n <= |s| then n else |s|;
      if n == 1 then (s[0], 1) else (Continue(Low(s[0], LeadRange(n)), s[1..taken]), taken)
  }

  method DecodeUtf8(s: seq<Byte>, p: nat) returns (c: nat, q: nat)
    requires p <= |s|
    ensures p <= q <= |s| && (c, q - p) == Decode(s[p..])
  {
    if p >= |s| {
      return 0, p;
    }
    var first := s[p];
    q := p + 1;
    var n := ByteLength(first);
    if n == 1 {
      return first, q;
    }
    c := Low(first, LeadRange(n));
    var i := 1;
    ghost var tail := s[p..];
    ghost var taken := if n <= |tail| then n else |tail|;
    while i < n && q < |s|
      invariant 1 <= i <= taken && q == p + i
      invariant Continue(c, tail[i..taken]) == Decode(tail).0
    {
      assert tail[i..taken][0] == s[q] && tail[i..taken][1..] == tail[i + 1..taken];
      c := c * 0x40 + Low(s[q], 0x40);
      i := i + 1;
      q := q + 1;
    }
  }

  /** The four bytes written from 0x10000 up, of which only the low eight bits each are kept. */
  function FourBytes(c: nat): (s: seq<Byte>)
    ensures |s| == 4
  {
    [0xF0 + Low(c / 0x4_0000, 0x10), 0x80 + Low(c / 0x1000, 0x40), 0x80 + Low(c / 0x40, 0x40), 0x80 + Low(c, 0x40)]
  }

  method EncodeUtf8(out: seq<Byte>, c: nat) returns (out': seq<Byte>)
    requires c < 0x1_0000_0000
    ensures out' == out + if c < 0x11_0000 then Encode(c) else FourBytes(c)
  {
    if c < 0x80 {
      out' := out + [c];
    } else if c < 0x800 {
      out' := out + [0xC0 + c / 0x40];
      out' := out' + [0x80 + c % 0x40];
    } else if c < 0x1_0000 {
      out' := out + [0xE0 + c / 0x1000];
      out' := out' + [0x80 + c / 0x40 % 0x40];
      out' := out' + [0x80 + c % 0x40];
    } else {
      out' := out + [0xF0 + c / 0x4_0000 % 0x10];
      out' := out' + [0x80 + c / 0x1000 % 0x40];
      out' := out' + [0x80 + c / 0x40 % 0x40];
      out' := out' + [0x80 + c % 0x40];
      FourBytesAre(c);
    }
  }

  lemma FourBytesAre(c: nat)
    ensures FourBytes(c)
            == [0xF0 + c / 0x4_0000 % 0x10, 0x80 + c / 0x1000 % 0x40, 0x80 + c / 0x40 % 0x40, 0x80 + c % 0x40]
    ensures 0x1_0000 <= c < 0x11_0000 ==> FourBytes(c) == Encode(c)
  {
  }

  /** Only the low 22 bits are written. */
  lemma FourBytesLow(c: nat)
    ensures FourBytes(c) == FourBytes(c % 0x40_0000)
  {
    var d, k := c % 0x40_0000, c / 0x40_0000;
    assert c == d + 0x40_0000 * k;
    SameDigit(c, d, 0x4_0000, 0x10, 0x10, k);
    SameDigit(c, d, 0x1000, 0x40, 0x400, k);
    SameDigit(c, d, 0x40, 0x40, 0x1_0000, k);
    SameRemainder(c, d, 0x40, 0x1_0000 * k);
    hide Low;
    assert Low(c, 0x40) == Low(d, 0x40) by { LowIs(c, 0x40); LowIs(d, 0x40); }
  }

  lemma LowIs(x: nat, m: nat)
    requires m > 0
    ensures Low(x, m) == x % m
  {
  }

  /** Adding a multiple of a * step, where m divides step, leaves the digit in place a, of m values, alone. */
  lemma SameDigit(c: nat, d: nat, a: nat, m: nat, step: nat, k: nat)
    requires a > 0 && m > 0 && c == d + a * step * k && step % m == 0
    ensures Low(c / a, m) == Low(d / a, m)
  {
    assert a * step * k == a * (step * k);
    QuotientShift(d, a, step * k);
    assert step == m * (step / m);
    assert step * k == m * (step / m * k);
    SameRemainder(c / a, d / a, m, step / m * k);
  }

  /** So a number past the last code point is written as valid UTF-8 exactly if its low 22 bits are a code point of
    * four bytes. */
  lemma FourBytesWellFormedIff(c: nat)
    ensures WellFormed(FourBytes(c)) <==> 0x1_0000 <= c % 0x40_0000 < 0x11_0000
  {
    hide Encode, Encoded, Payload, WellFormed, FourBytes;
    var d := c % 0x40_0000;
    var s := FourBytes(d);
    FourBytesLow(c);
    FourBytesAre(d);
    if 0x1_0000 <= d < 0x11_0000 {
      EmptyIsWellFormed();
      WellFormedFront(d, []);
      assert Encode(d) + [] == s;
    }
    if WellFormed(s) {
      FirstOfWellFormed(s);
      var x: Scalar :| StartsWith(s, x);
      StartIsMinimal(s, x);
      assert s[..4] == s;
      FourBytesPayload(d);
    }
  }

  lemma FirstOfWellFormed(s: seq<Byte>)
    requires WellFormed(s) && s != []
    ensures exists c: Scalar :: StartsWith(s, c)
  {
    if forall c: Scalar :: !StartsWith(s, c) {
      IllFormedFront(s);
    }
  }

  lemma FourBytesPayload(d: nat)
    requires d < 0x40_0000 && Shaped(FourBytes(d))
    ensures Payload(FourBytes(d)) == d
  {
    hide Low;
    var s := FourBytes(d);
    assert s[0] < 0xF8;
    LowBelow(d / 0x4_0000, 0x10);
    LowOf(0xF0, d / 0x4_0000, 8);
    LowOf(0x80, Low(d / 0x1000, 0x40), 0x40);
    LowOf(0x80, Low(d / 0x40, 0x40), 0x40);
    LowOf(0x80, Low(d, 0x40), 0x40);
    SixBits(d);
  }

  lemma LowBelow(x: nat, m: nat)
    requires x < m
    ensures Low(x, m) == x
  {
  }

  lemma SixBits(d: nat)
    ensures d == d / 0x4_0000 * 0x4_0000 + Low(d / 0x1000, 0x40) * 0x1000 + Low(d / 0x40, 0x40) * 0x40 + Low(d, 0x40)
  {
    assert d / 0x40 == d / 0x1000 * 0x40 + d / 0x40 % 0x40;
    assert d / 0x1000 == d / 0x4_0000 * 0x40 + d / 0x1000 % 0x40;
  }

  lemma ContinuePayload(s: seq<Byte>)
    requires Shaped(s) && |s| > 1
    ensures Continue(Low(s[0], LeadRange(|s|)), s[1..]) == Payload(s)
  {
    hide Low;
    var a := Low(s[0], LeadRange(|s|));
    var b := a * 0x40 + Low(s[1], 0x40);
    assert Continue(a, s[1..]) == Continue(b, s[1..][1..]);
    assert s[1..][1..] == s[2..];
    if |s| > 2 {
      var d := b * 0x40 + Low(s[2], 0x40);
      assert s[2..][1..] == s[3..];
      assert Continue(b, s[2..]) == Continue(d, s[3..]);
      if |s| > 3 {
        assert s[3..][1..] == [];
        assert Continue(d, s[3..]) == d * 0x40 + Low(s[3], 0x40);
      }
    }
  }

  /** No bit is shifted out of the 32 that hold the code point. */
  lemma DecodedFits(s: seq<Byte>)
    ensures Decode(s).0 < 0x20_0000
  {
    if s != [] && ByteLength(s[0]) > 1 {
      var n := ByteLength(s[0]);
      var taken := if n <= |s| then n else |s|;
      ContinueFits(Low(s[0], LeadRange(n)), s[1..taken]);
    }
  }

  lemma ContinueFits(c: nat, s: seq<Byte>)
    requires |s| <= 3
    ensures Continue(c, s) < (c + 1) * [1, 0x40, 0x1000, 0x4_0000][|s|]
    decreases |s|
  {
    hide Low;
    if s != [] {
      ContinueFits(c * 0x40 + Low(s[0], 0x40), s[1..]);
    }
  }

  /** Decoding is a left inverse of encoding, whatever follows. */
  lemma DecodesFront(c: CodePoint, s: seq<Byte>)
    requires Encode(c) <= s
    ensures Decode(s) == (c, |Encode(c)|)
  {
    hide Encode, Payload, Low, Continue;
    EncodingIsShaped(c);
    var n := |Encode(c)|;
    assert s[0] == Encode(c)[0] && s[..n] == Encode(c);
    if n == 1 {
      PayloadOne(Encode(c));
    } else {
      ContinuePayload(Encode(c));
      assert s[1..n] == Encode(c)[1..];
    }
  }

  lemma PayloadOne(s: seq<Byte>)
    requires |s| == 1
    ensures Payload(s) == s[0]
  {
  }

  /** What repeated decoding makes of a string. */
  function DecodeAll(s: seq<Byte>): seq<nat> {
    if s == [] then [] else [Decode(s).0] + DecodeAll(s[Decode(s).1..])
  }

  /** Repeated decoding gives back any sequence of code points, surrogates included. */
  lemma {:induction false} DecodesEncoded(cs: seq<CodePoint>)
    ensures DecodeAll(Encoded(cs)) == cs
  {
    hide Encode, Decode;
    if cs != [] {
      var s := Encoded(cs);
      DecodesFront(cs[0], s);
      assert s[|Encode(cs[0])|..] == Encoded(cs[1..]);
      DecodesEncoded(cs[1..]);
    }
  }

  predicate AllScalars(cs: seq<nat>) {
    forall i :: 0 <= i < |cs| ==> cs[i] < 0x11_0000 && !IsSurrogate(cs[i])
  }

  /** Decoding and encoding again reproduces a string, out of scalar values only, exactly when the validator accepts
    * it. */
  lemma ReencodingReproduces(s: seq<Byte>)
    ensures WellFormed(s) <==> AllScalars(DecodeAll(s)) && Encoded(DecodeAll(s)) == s
  {
    hide Encode, Decode;
    if WellFormed(s) {
      var cs: seq<Scalar> :| Encoded(cs) == s;
      DecodesEncoded(cs);
    }
  }
}
