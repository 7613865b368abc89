/** Recognising the encoding of a buffer by its byte order mark and rewriting UTF-16 and UTF-32 as UTF-8. */
module Transcoding {
  import opened Bytes
  import opened Utf8

  type Unit = u: nat | u < 0x1_0000

  predicate IsHigh(u: nat) {
    0xD800 <= u < 0xDC00
  }

  predicate IsLow(u: nat) {
    0xDC00 <= u < 0xE000
  }

  // ---- The encodings of RFC 2781 and of UTF-32 ----

  /** Section 2.1 of RFC 2781. */
  function Units(c: Scalar): (us: seq<Unit>)
    ensures 1 <= |us| <= 2
  {
    if c < 0x1_0000 then [c] else [0xD800 + (c - 0x1_0000) / 0x400, 0xDC00 + (c - 0x1_0000) % 0x400]
  }

  function AllUnits(cs: seq<Scalar>): seq<Unit> {
    if cs == [] then [] else Units(cs[0]) + AllUnits(cs[1..])
  }

  function UnitBytes(u: Unit, big: bool): (s: seq<Byte>)
    ensures |s| == 2
  {
    if big then [u / 0x100, u % 0x100] else [u % 0x100, u / 0x100]
  }

  function Wire16(us: seq<Unit>, big: bool): seq<Byte> {
    if us == [] then [] else UnitBytes(us[0], big) + Wire16(us[1..], big)
  }

  type Word = w: nat | w < 0x1_0000_0000

  function WordBytes(w: Word, big: bool): (s: seq<Byte>)
    ensures |s| == 4
  {
    if big then UnitBytes(w / 0x1_0000, true) + UnitBytes(w % 0x1_0000, true)
    else UnitBytes(w % 0x1_0000, false) + UnitBytes(w / 0x1_0000, false)
  }

  function Wire32(ws: seq<Word>, big: bool): seq<Byte> {
    if ws == [] then [] else WordBytes(ws[0], big) + Wire32(ws[1..], big)
  }

  // ---- What the converters read ----

  /** (high << 8) | low. */
  function Joined(high: nat, low: nat): nat {
    high * 0x100 + low
  }

  function UnitAt(d: seq<Byte>, i: nat, big: bool): Unit
    requires i + 1 < |d|
  {
    if big then Joined(d[i], d[i + 1]) else Joined(d[i + 1], d[i])
  }

  function WordAt(d: seq<Byte>, i: nat, big: bool): Word
    requires i + 3 < |d|
  {
    if big then UnitAt(d, i, true) * 0x1_0000 + UnitAt(d, i + 2, true)
    else UnitAt(d, i + 2, false) * 0x1_0000 + UnitAt(d, i, false)
  }

  /** The whole code units from i on; an odd byte at the end is dropped. */
  function UnitsFrom(d: seq<Byte>, i: nat, big: bool): seq<Unit>
    decreases |d| - i
  {
    if i + 1 < |d| then [UnitAt(d, i, big)] + UnitsFrom(d, i + 2, big) else []
  }

  function WordsFrom(d: seq<Byte>, i: nat, big: bool): seq<Word>
    decreases |d| - i
  {
    if i + 3 < |d| then [WordAt(d, i, big)] + WordsFrom(d, i + 4, big) else []
  }

  /** Where the text starts: behind a byte order mark in the expected order. */
  function Start16(d: seq<Byte>, big: bool): nat {
    if |d| >= 2 && UnitAt(d, 0, big) == 0xFEFF then 2 else 0
  }

  /** Here a mark in the other order, which is no code point, is skipped as well. */
  function Start32(d: seq<Byte>, big: bool): nat {
    if |d| >= 4 && WordAt(d, 0, big) in {0xFEFF, 0xFFFE_0000} then 4 else 0
  }

  // ---- The converters ----

  /** The code point of a surrogate pair. */
  function Paired(high: nat, low: nat): CodePoint
    requires IsHigh(high) && IsLow(low)
  {
    0x1_0000 + (high - 0xD800) * 0x400 + (low - 0xDC00)
  }

  /** Pairs become one code point; a high surrogate at the very end stops the conversion; any other surrogate is
    * encoded as it stands. */
  function Transcode16(us: seq<Unit>): seq<Byte> {
    if us == [] then []
    else if IsHigh(us[0]) && |us| == 1 then []
    else if IsHigh(us[0]) && IsLow(us[1]) then Encode(Paired(us[0], us[1])) + Transcode16(us[2..])
    else Encode(us[0]) + Transcode16(us[1..])
  }

  /** Numbers that are no code points disappear. */
  function Kept(ws: seq<Word>): (cs: seq<CodePoint>)
    ensures |cs| <= |ws|
  {
    if ws == [] then [] else (if ws[0] < 0x11_0000 then [ws[0]] else []) + Kept(ws[1..])
  }

  method ConvertUtf16ToUtf8(data: seq<Byte>, big: bool) returns (out: seq<Byte>)
    ensures out == Transcode16(UnitsFrom(data, Start16(data, big), big))
  {
    hide Encode, UnitAt, Paired, Transcode16;
    assert Transcode16([]) == [] by { TranscodeNone(); }
    out := [];
    var start := 0;
    if |data| >= 2 {
      MarkOfTwo(data, big);
      if (big && data[0] == 0xFE && data[1] == 0xFF) || (!big && data[0] == 0xFF && data[1] == 0xFE) {
        start := 2;
      }
    }
    var i := start;
    while i + 1 < |data|
      invariant out + Transcode16(UnitsFrom(data, i, big)) == Transcode16(UnitsFrom(data, start, big))
    {
      var unit := UnitAt(data, i, big);
      TranscodeNext(data, i, big);
      if 0xD800 <= unit <= 0xDBFF {
        if i + 3 >= |data| {
          break;
        }
        var low := UnitAt(data, i + 2, big);
        if 0xDC00 <= low <= 0xDFFF {
          out := out + Encode(Paired(unit, low));
          i := i + 4;
          continue;
        }
      }
      out := out + Encode(unit);
      i := i + 2;
    }
  }

  lemma TranscodeNone()
    ensures Transcode16([]) == []
  {
  }

  /** What becomes of the unit at i. */
  lemma TranscodeNext(d: seq<Byte>, i: nat, big: bool)
    requires i + 1 < |d|
    ensures Transcode16(UnitsFrom(d, i, big)) ==
            if IsHigh(UnitAt(d, i, big)) && i + 3 >= |d| then []
            else if IsHigh(UnitAt(d, i, big)) && IsLow(UnitAt(d, i + 2, big)) then
              Encode(Paired(UnitAt(d, i, big), UnitAt(d, i + 2, big))) + Transcode16(UnitsFrom(d, i + 4, big))
            else Encode(UnitAt(d, i, big)) + Transcode16(UnitsFrom(d, i + 2, big))
  {
    hide Encode, UnitAt, Paired;
    var us := UnitsFrom(d, i, big);
    assert us[1..] == UnitsFrom(d, i + 2, big);
    if i + 3 < |d| {
      assert us[2..] == UnitsFrom(d, i + 4, big);
    }
  }

  lemma MarkOfTwo(d: seq<Byte>, big: bool)
    requires |d| >= 2
    ensures UnitAt(d, 0, big) == 0xFEFF <==> if big then d[0] == 0xFE && d[1] == 0xFF else d[0] == 0xFF && d[1] == 0xFE
  {
  }

  lemma KeptFirst(ws: seq<Word>)
    requires ws != []
    ensures Encoded(Kept(ws)) == (if ws[0] < 0x11_0000 then Encode(ws[0]) else []) + Encoded(Kept(ws[1..]))
  {
    hide Encode, Encoded;
    if ws[0] < 0x11_0000 {
      EncodedCons(ws[0], Kept(ws[1..]));
    } else {
      assert Kept(ws) == Kept(ws[1..]);
    }
  }

  lemma EncodedCons(c: CodePoint, cs: seq<CodePoint>)
    ensures Encoded([c] + cs) == Encode(c) + Encoded(cs)
  {
    hide Encode;
    assert ([c] + cs)[1..] == cs;
  }

  lemma KeptNone()
    ensures Encoded(Kept([])) == []
  {
  }

  method ConvertUtf32ToUtf8(data: seq<Byte>, big: bool) returns (out: seq<Byte>)
    ensures out == Encoded(Kept(WordsFrom(data, Start32(data, big), big)))
  {
    hide Encode, Encoded, Kept, WordAt;
    assert Encoded(Kept([])) == [] by { KeptNone(); }
    out := [];
    var start := 0;
    if |data| >= 4 {
      var mark := WordAt(data, 0, big);
      if mark == 0xFEFF || mark == 0xFFFE_0000 {
        start := 4;
      }
    }
    var i := start;
    while i + 3 < |data|
      invariant out + Encoded(Kept(WordsFrom(data, i, big))) == Encoded(Kept(WordsFrom(data, start, big)))
    {
      var c := WordAt(data, i, big);
      KeptFirst(WordsFrom(data, i, big));
      assert WordsFrom(data, i, big)[1..] == WordsFrom(data, i + 4, big);
      if c < 0x11_0000 {
        out := out + Encode(c);
      }
      i := i + 4;
    }
  }

  // ---- Text comes through unchanged ----

  lemma PairedUnits(c: Scalar)
    requires c >= 0x1_0000
    ensures IsHigh(Units(c)[0]) && IsLow(Units(c)[1]) && Paired(Units(c)[0], Units(c)[1]) == c
  {
    var v := c - 0x1_0000;
    assert v / 0x400 * 0x400 + v % 0x400 == v;
  }

  /** A pair stands for ten bits of each half, counted from 0x10000. */
  lemma PairIs(high: nat, low: nat)
    requires IsHigh(high) && IsLow(low)
    ensures var v := Paired(high, low) - 0x1_0000;
            0 <= v < 0x10_0000 && v / 0x400 == high - 0xD800 && v % 0x400 == low - 0xDC00
  {
  }

  /** The example in section 2.1 of RFC 2781, in both byte orders. */
  lemma KnownUnits()
    ensures Units(0x12345) == [0xD808, 0xDF45] && Paired(0xD808, 0xDF45) == 0x12345
    ensures UnitBytes(0xD808, true) == [0xD8, 0x08] && UnitBytes(0xD808, false) == [0x08, 0xD8]
    ensures WordBytes(0x12345, true) == [0, 1, 0x23, 0x45] && WordBytes(0x12345, false) == [0x45, 0x23, 1, 0]
  {
  }

  lemma {:induction false} TranscodesUnits(cs: seq<Scalar>)
    ensures Transcode16(AllUnits(cs)) == Encoded(cs)
  {
    hide Encode, Paired;
    if cs != [] {
      var us := AllUnits(cs);
      TranscodesUnits(cs[1..]);
      if cs[0] < 0x1_0000 {
        assert us[0] == cs[0] && us[1..] == AllUnits(cs[1..]);
      } else {
        PairedUnits(cs[0]);
        assert us[..2] == Units(cs[0]) && us[2..] == AllUnits(cs[1..]);
        assert us[0] == Units(cs[0])[0] && us[1] == Units(cs[0])[1];
      }
    }
  }

  lemma {:induction false} KeepsScalars(cs: seq<Scalar>)
    ensures Kept(cs) == cs
  {
    if cs != [] {
      KeepsScalars(cs[1..]);
    }
  }

  lemma {:induction false} ReadsWire16(front: seq<Byte>, us: seq<Unit>, big: bool)
    ensures UnitsFrom(front + Wire16(us, big), |front|, big) == us
    decreases |us|
  {
    var d := front + Wire16(us, big);
    if us != [] {
      var u := us[0];
      assert u / 0x100 * 0x100 + u % 0x100 == u;
      assert d == front + UnitBytes(u, big) + Wire16(us[1..], big);
      ReadsWire16(front + UnitBytes(u, big), us[1..], big);
      assert d[|front|..|front| + 2] == UnitBytes(u, big);
      assert UnitAt(d, |front|, big) == u;
    }
  }

  lemma ReadsWord(front: seq<Byte>, w: Word, back: seq<Byte>, big: bool)
    ensures WordAt(front + WordBytes(w, big) + back, |front|, big) == w
  {
    hide UnitBytes, UnitAt;
    var d := front + WordBytes(w, big) + back;
    var n := |front|;
    assert w == w / 0x1_0000 * 0x1_0000 + w % 0x1_0000;
    var first, second := if big then w / 0x1_0000 else w % 0x1_0000, if big then w % 0x1_0000 else w / 0x1_0000;
    assert d[n..n + 2] == UnitBytes(first, big);
    assert d[n + 2..n + 4] == UnitBytes(second, big);
    ReadsUnit(d, n, first, big);
    ReadsUnit(d, n + 2, second, big);
  }

  lemma ReadsUnit(d: seq<Byte>, i: nat, u: Unit, big: bool)
    requires i + 2 <= |d| && d[i..i + 2] == UnitBytes(u, big)
    ensures UnitAt(d, i, big) == u
  {
    assert d[i] == d[i..i + 2][0] && d[i + 1] == d[i..i + 2][1];
    assert u / 0x100 * 0x100 + u % 0x100 == u;
  }

  lemma {:induction false} ReadsWire32(front: seq<Byte>, ws: seq<Word>, big: bool)
    ensures WordsFrom(front + Wire32(ws, big), |front|, big) == ws
    decreases |ws|
  {
    hide WordAt, WordBytes;
    var d := front + Wire32(ws, big);
    if ws != [] {
      assert d == front + WordBytes(ws[0], big) + Wire32(ws[1..], big);
      ReadsWire32(front + WordBytes(ws[0], big), ws[1..], big);
      ReadsWord(front, ws[0], Wire32(ws[1..], big), big);
    }
  }

  // ---- Arbitrary data ----

  /** A surrogate that is half of a pair, or a high one that is the last unit of all. */
  predicate Harmless(us: seq<Unit>, i: nat)
    requires i < |us| && IsSurrogate(us[i])
  {
    || (IsHigh(us[i]) && (i + 1 == |us| || IsLow(us[i + 1])))
    || (IsLow(us[i]) && i > 0 && IsHigh(us[i - 1]))
  }

  predicate NoUnpaired(us: seq<Unit>) {
    forall i :: 0 <= i < |us| && IsSurrogate(us[i]) ==> Harmless(us, i)
  }

  lemma NoUnpairedDrop(us: seq<Unit>, n: nat)
    requires n in {1, 2} && n <= |us|
    requires if n == 1 then !IsSurrogate(us[0]) else IsHigh(us[0]) && IsLow(us[1])
    ensures NoUnpaired(us) <==> NoUnpaired(us[n..])
  {
    var rest := us[n..];
    if NoUnpaired(us) {
      forall i | 0 <= i < |rest| && IsSurrogate(rest[i]) ensures Harmless(rest, i) {
        assert rest[i] == us[i + n] && Harmless(us, i + n);
      }
    }
    if NoUnpaired(rest) {
      forall i | 0 <= i < |us| && IsSurrogate(us[i]) ensures Harmless(us, i) {
        if i >= n {
          assert rest[i - n] == us[i] && Harmless(rest, i - n);
        }
      }
    }
  }

  /** Whatever code units come in, the UTF-8 that goes out is accepted by the validator exactly when no surrogate was
    * unpaired, a high one at the very end aside. */
  lemma {:induction false} WellFormedIffPaired(us: seq<Unit>)
    ensures WellFormed(Transcode16(us)) <==> NoUnpaired(us)
  {
    hide Encode, WellFormed, Paired, NoUnpaired;
    if us == [] || (IsHigh(us[0]) && |us| == 1) {
      EmptyIsWellFormed();
      NoUnpairedBase(us);
    } else if IsHigh(us[0]) && IsLow(us[1]) {
      WellFormedIffPaired(us[2..]);
      WellFormedFront(PairedScalar(us[0], us[1]), Transcode16(us[2..]));
      NoUnpairedDrop(us, 2);
    } else if IsSurrogate(us[0]) {
      SurrogateIsIllFormed(us[0], Transcode16(us[1..]));
      UnpairedFirst(us);
    } else {
      WellFormedIffPaired(us[1..]);
      WellFormedFront(us[0], Transcode16(us[1..]));
      NoUnpairedDrop(us, 1);
    }
  }

  lemma NoUnpairedBase(us: seq<Unit>)
    requires us == [] || (IsHigh(us[0]) && |us| == 1)
    ensures NoUnpaired(us)
  {
  }

  lemma UnpairedFirst(us: seq<Unit>)
    requires |us| > 0 && IsSurrogate(us[0]) && (IsHigh(us[0]) ==> |us| > 1 && !IsLow(us[1]))
    ensures !NoUnpaired(us)
  {
    assert !Harmless(us, 0);
  }

  function PairedScalar(high: nat, low: nat): (c: Scalar)
    requires IsHigh(high) && IsLow(low)
    ensures c == Paired(high, low)
  {
    Paired(high, low)
  }

  /** In UTF-32 there are no pairs: every surrogate spoils the output. */
  lemma {:induction false} WellFormedIffNoSurrogate(ws: seq<Word>)
    ensures WellFormed(Encoded(Kept(ws))) <==> forall i :: 0 <= i < |ws| ==> !IsSurrogate(ws[i])
  {
    hide Encode, WellFormed;
    if ws == [] {
      EmptyIsWellFormed();
    } else {
      KeptFirst(ws);
      WellFormedIffNoSurrogate(ws[1..]);
      var rest := Encoded(Kept(ws[1..]));
      if IsSurrogate(ws[0]) {
        SurrogateIsIllFormed(ws[0], rest);
      } else {
        assert forall i :: 0 <= i < |ws| ==> ws[i] == ws[0] || ws[i] in ws[1..];
        if ws[0] < 0x11_0000 {
          WellFormedFront(ws[0], rest);
        } else {
          assert Encoded(Kept(ws)) == rest;
        }
      }
    }
  }
}
