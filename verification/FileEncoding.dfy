/** Bringing a file's contents to UTF-8 by the byte order mark in front of it. */
module FileEncoding {
  import opened Bytes
  import opened Utf8
  import opened Transcoding

  datatype Encoding = Utf8 | Utf16LE | Utf16BE | Utf32LE | Utf32BE | Unknown

  function DetectEncoding(d: seq<Byte>): Encoding {
    if |d| < 2 then Unknown
    else if |d| >= 3 && d[0] == 0xEF && d[1] == 0xBB && d[2] == 0xBF then Encoding.Utf8
    else if d[0] == 0xFF && d[1] == 0xFE then
      if |d| >= 4 && d[2] == 0 && d[3] == 0 then Utf32LE else Utf16LE
    else if d[0] == 0xFE && d[1] == 0xFF then Utf16BE
    else if |d| >= 4 && d[0] == 0 && d[1] == 0 && d[2] == 0xFE && d[3] == 0xFF then Utf32BE
    else Encoding.Utf8
  }

  function ToUtf8(d: seq<Byte>): seq<Byte> {
    match DetectEncoding(d)
    case Utf8 => if [0xEF, 0xBB, 0xBF] <= d then d[3..] else d
    case Utf16LE => Transcode16(UnitsFrom(d, Start16(d, false), false))
    case Utf16BE => Transcode16(UnitsFrom(d, Start16(d, true), true))
    case Utf32LE => Encoded(Kept(WordsFrom(d, Start32(d, false), false)))
    case Utf32BE => Encoded(Kept(WordsFrom(d, Start32(d, true), true)))
    case Unknown => d
  }

  method ConvertToUtf8(d: seq<Byte>) returns (out: seq<Byte>)
    ensures out == ToUtf8(d)
  {
    hide UnitsFrom, WordsFrom, Transcode16, Encoded, Kept, Start16, Start32;
    var e := DetectEncoding(d);
    if e == Encoding.Utf8 {
      var start := 0;
      if |d| >= 3 && d[0] == 0xEF && d[1] == 0xBB && d[2] == 0xBF {
        start := 3;
        assert d[..3] == [0xEF, 0xBB, 0xBF];
      }
      return d[start..];
    }
    match e
    case Utf16LE => out := ConvertUtf16ToUtf8(d, false);
    case Utf16BE => out := ConvertUtf16ToUtf8(d, true);
    case Utf32LE => out := ConvertUtf32ToUtf8(d, false);
    case Utf32BE => out := ConvertUtf32ToUtf8(d, true);
    case Unknown => out := d;
  }

  /** A text as its encoding stores it. */
  function Stored(e: Encoding, cs: seq<Scalar>): seq<Byte>
    requires !e.Unknown?
  {
    match e
    case Utf8 => Encoded(cs)
    case Utf16LE => Wire16(AllUnits(cs), false)
    case Utf16BE => Wire16(AllUnits(cs), true)
    case Utf32LE => Wire32(cs, false)
    case Utf32BE => Wire32(cs, true)
  }

  const MARK: Scalar := 0xFEFF

  // ---- A text behind a byte order mark ----

  function Marked(e: Encoding, cs: seq<Scalar>): seq<Byte>
    requires !e.Unknown?
  {
    Stored(e, [MARK] + cs)
  }

  lemma Marked8(cs: seq<Scalar>)
    ensures ToUtf8(Marked(Encoding.Utf8, cs)) == Encoded(cs)
  {
    hide Encoded;
    assert Encode(MARK) == [0xEF, 0xBB, 0xBF];
    EncodedCons(MARK, cs);
    var d := Marked(Encoding.Utf8, cs);
    assert d[..3] == [0xEF, 0xBB, 0xBF] && d[3..] == Encoded(cs);
    assert d[0] == d[..3][0] && d[1] == d[..3][1] && d[2] == d[..3][2];
  }

  function Mark16(big: bool): (s: seq<Byte>)
    ensures |s| == 2
    ensures if big then s == [0xFE, 0xFF] else s == [0xFF, 0xFE]
  {
    UnitBytes(MARK, big)
  }

  function Mark32(big: bool): (s: seq<Byte>)
    ensures |s| == 4
    ensures if big then s == [0, 0, 0xFE, 0xFF] else s == [0xFF, 0xFE, 0, 0]
  {
    WordBytes(MARK, big)
  }

  lemma MarkedLayout16(cs: seq<Scalar>, big: bool)
    ensures Wire16(AllUnits([MARK] + cs), big) == Mark16(big) + Wire16(AllUnits(cs), big)
  {
    var all: seq<Scalar> := [MARK] + cs;
    assert all[1..] == cs;
    assert AllUnits(all) == [MARK] + AllUnits(cs);
    assert AllUnits(all)[1..] == AllUnits(cs);
  }

  lemma MarkedLayout32(cs: seq<Scalar>, big: bool)
    ensures Wire32([MARK] + cs, big) == Mark32(big) + Wire32(cs, big)
  {
    assert ([MARK] + cs)[1..] == cs;
  }

  /** Told the right byte order, each converter turns the text into its UTF-8 encoding, mark removed. */
  lemma ConvertsMarked16(cs: seq<Scalar>, big: bool)
    ensures var d := Mark16(big) + Wire16(AllUnits(cs), big);
            Transcode16(UnitsFrom(d, Start16(d, big), big)) == Encoded(cs)
  {
    hide Encoded, Transcode16, UnitsFrom, Wire16, AllUnits, Mark16;
    var d := Mark16(big) + Wire16(AllUnits(cs), big);
    assert d[0] == Mark16(big)[0] && d[1] == Mark16(big)[1];
    MarkOfTwo(d, big);
    ReadsWire16(Mark16(big), AllUnits(cs), big);
    TranscodesUnits(cs);
  }

  lemma ConvertsMarked32(cs: seq<Scalar>, big: bool)
    ensures var d := Mark32(big) + Wire32(cs, big);
            Encoded(Kept(WordsFrom(d, Start32(d, big), big))) == Encoded(cs)
  {
    hide Encoded, Kept, WordsFrom, Wire32, WordBytes, WordAt;
    var d := Mark32(big) + Wire32(cs, big);
    assert d == [] + WordBytes(MARK, big) + Wire32(cs, big);
    ReadsWord([], MARK, Wire32(cs, big), big);
    ReadsWire32(Mark32(big), cs, big);
    KeepsScalars(cs);
  }

  /** Without a mark each converter starts with the first character. */
  lemma ConvertsUnmarked16(cs: seq<Scalar>, big: bool)
    requires cs == [] || cs[0] != MARK
    ensures var d := Wire16(AllUnits(cs), big); Transcode16(UnitsFrom(d, Start16(d, big), big)) == Encoded(cs)
  {
    hide Encoded, Transcode16, Wire16, AllUnits, UnitAt;
    var us := AllUnits(cs);
    var d := Wire16(us, big);
    assert [] + d == d;
    ReadsWire16([], us, big);
    TranscodesUnits(cs);
    if |d| >= 2 {
      assert us[0] == UnitAt(d, 0, big);
      FirstUnitIs(cs);
    }
  }

  lemma FirstUnitIs(cs: seq<Scalar>)
    ensures AllUnits(cs) != [] && AllUnits(cs)[0] == 0xFEFF ==> cs != [] && cs[0] == MARK
  {
    if cs != [] {
      assert AllUnits(cs)[0] == Units(cs[0])[0];
    }
  }

  lemma ConvertsUnmarked32(cs: seq<Scalar>, big: bool)
    requires cs == [] || cs[0] != MARK
    ensures var d := Wire32(cs, big); Encoded(Kept(WordsFrom(d, Start32(d, big), big))) == Encoded(cs)
  {
    hide Encoded, Kept, Wire32, WordAt;
    var d := Wire32(cs, big);
    assert [] + d == d;
    ReadsWire32([], cs, big);
    KeepsScalars(cs);
    if |d| >= 4 {
      assert cs[0] == WordAt(d, 0, big);
    }
  }

  lemma Detects16(cs: seq<Scalar>, big: bool)
    ensures DetectEncoding(Mark16(big) + Wire16(AllUnits(cs), big)) ==
            if big then Utf16BE else if cs != [] && cs[0] == 0 then Utf32LE else Utf16LE
  {
    hide Mark16, Units;
    var us := AllUnits(cs);
    var d := Mark16(big) + Wire16(us, big);
    assert d[0] == Mark16(big)[0] && d[1] == Mark16(big)[1];
    if us != [] {
      assert d[2] == UnitBytes(us[0], big)[0] && d[3] == UnitBytes(us[0], big)[1];
    }
    FirstUnit(cs);
  }

  lemma FirstUnit(cs: seq<Scalar>)
    ensures AllUnits(cs) == [] <==> cs == []
    ensures cs != [] ==> (AllUnits(cs)[0] == 0 <==> cs[0] == 0)
  {
    if cs != [] {
      assert AllUnits(cs)[0] == Units(cs[0])[0];
    }
  }

  lemma Detects32(cs: seq<Scalar>, big: bool)
    ensures DetectEncoding(Mark32(big) + Wire32(cs, big)) == if big then Utf32BE else Utf32LE
  {
    hide Mark32, Wire32;
    var d := Mark32(big) + Wire32(cs, big);
    assert d[..4] == Mark32(big);
    assert d[0] == d[..4][0] && d[1] == d[..4][1] && d[2] == d[..4][2] && d[3] == d[..4][3];
  }

  lemma {:induction false} FewUnits(cs: seq<Scalar>)
    ensures |AllUnits(cs)| <= 2 * |cs|
  {
    if cs != [] {
      FewUnits(cs[1..]);
    }
  }

  lemma {:induction false} WireLength(us: seq<Unit>, big: bool)
    ensures |Wire16(us, big)| == 2 * |us|
  {
    if us != [] {
      WireLength(us[1..], big);
    }
  }

  lemma {:induction false} FewWords(d: seq<Byte>, i: nat, big: bool)
    requires i <= |d|
    ensures 4 * |WordsFrom(d, i, big)| <= |d| - i
    decreases |d| - i
  {
    if i + 3 < |d| {
      FewWords(d, i + 4, big);
    }
  }

  /** Taken for UTF-32, a UTF-16 text has too few characters left to come out right. */
  lemma TakenFor32(cs: seq<Scalar>)
    requires cs != []
    ensures var d := Mark16(false) + Wire16(AllUnits(cs), false);
            cs[0] == 0 ==> Encoded(Kept(WordsFrom(d, Start32(d, false), false))) != Encoded(cs)
  {
    hide Encoded, Kept, WordsFrom, Wire16, AllUnits, WordAt;
    var d := Mark16(false) + Wire16(AllUnits(cs), false);
    if cs[0] == 0 {
      StartsLike32(cs);
      FewUnits(cs);
      WireLength(AllUnits(cs), false);
      FewWords(d, 4, false);
      if Encoded(Kept(WordsFrom(d, 4, false))) == Encoded(cs) {
        EncodedIsInjective(Kept(WordsFrom(d, 4, false)), cs);
      }
    }
  }

  lemma StartsLike32(cs: seq<Scalar>)
    requires cs != [] && cs[0] == 0
    ensures var d := Mark16(false) + Wire16(AllUnits(cs), false); |d| >= 4 && Start32(d, false) == 4
  {
    var d := Mark16(false) + Wire16(AllUnits(cs), false);
    FirstUnit(cs);
    assert d[2..4] == UnitBytes(0, false);
    assert d[2] == 0 && d[3] == 0 && UnitAt(d, 0, false) == 0xFEFF;
  }

  /** A text behind a byte order mark is brought to UTF-8, in all five encodings; the one exception is little-endian
    * UTF-16 whose first character is U+0000, because its first four bytes are those of a UTF-32 mark. */
  lemma MarkedTextIsConverted(e: Encoding, cs: seq<Scalar>)
    requires !e.Unknown?
    ensures ToUtf8(Marked(e, cs)) == Encoded(cs) <==> !(e == Utf16LE && cs != [] && cs[0] == 0)
  {
    hide Encoded, Transcode16, UnitsFrom, WordsFrom, Kept, Wire16, Wire32, AllUnits, Mark16, Mark32, Start16, Start32;
    hide DetectEncoding;
    match e
    case Utf8 =>
      Marked8(cs);
    case Utf16LE =>
      MarkedLayout16(cs, false);
      Detects16(cs, false);
      ConvertsMarked16(cs, false);
      if cs != [] {
        TakenFor32(cs);
      }
    case Utf16BE =>
      MarkedLayout16(cs, true);
      Detects16(cs, true);
      ConvertsMarked16(cs, true);
    case Utf32LE =>
      MarkedLayout32(cs, false);
      Detects32(cs, false);
      ConvertsMarked32(cs, false);
    case Utf32BE =>
      MarkedLayout32(cs, true);
      Detects32(cs, true);
      ConvertsMarked32(cs, true);
  }

  // ---- Without a mark ----

  lemma {:induction false} EncodedBytes(cs: seq<CodePoint>)
    ensures forall k :: 0 <= k < |Encoded(cs)| ==> Encoded(cs)[k] < 0xF8
  {
    if cs != [] {
      EncodedBytes(cs[1..]);
      EncodeBytes(cs[0]);
    }
  }

  lemma EncodeBytes(c: CodePoint)
    ensures forall k :: 0 <= k < |Encode(c)| ==> Encode(c)[k] < 0xF8
  {
  }

  /** Plain UTF-8 is passed through, less one mark. */
  lemma PlainUtf8IsKept(cs: seq<Scalar>)
    ensures ToUtf8(Encoded(cs)) == Encoded(if cs != [] && cs[0] == MARK then cs[1..] else cs)
  {
    hide Encoded, Transcode16, UnitsFrom, WordsFrom, Kept, Start16, Start32;
    var d := Encoded(cs);
    if cs != [] && cs[0] == MARK {
      var rest: seq<Scalar> := cs[1..];
      assert cs == [MARK] + rest;
      Marked8(rest);
    } else {
      EncodedBytes(cs);
      if [0xEF, 0xBB, 0xBF] <= d {
        NoMark(cs);
      }
    }
  }

  lemma MarkBytes()
    ensures Encode(MARK) == [0xEF, 0xBB, 0xBF]
  {
  }

  lemma NoMark(cs: seq<Scalar>)
    requires [0xEF, 0xBB, 0xBF] <= Encoded(cs)
    ensures cs != [] && cs[0] == MARK
  {
    hide Encode;
    MarkBytes();
    FirstEncoding(cs);
    EncodeIsPrefixFree(MARK, cs[0], Encoded(cs));
  }

  lemma FirstEncoding(cs: seq<CodePoint>)
    requires Encoded(cs) != []
    ensures cs != [] && Encode(cs[0]) <= Encoded(cs)
  {
    hide Encode;
  }
}
