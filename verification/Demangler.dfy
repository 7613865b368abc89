/** A reader of mangled names, after section 5.1 of the Itanium C++ ABI. It knows nothing of how they are written. */
module Demangler {
  import opened Numerals
  import opened MangledNames

  datatype Parsed<+T> = Got(value: T, rest: string) | Bad {
    predicate IsFailure() {
      Bad?
    }

    function PropagateFailure<U>(): Parsed<U>
      requires Bad?
    {
      Bad
    }

    function Extract(): (T, string)
      requires Got?
    {
      (value, rest)
    }
  }

  // ---- Numbers and identifiers ----

  function DigitCount(s: string): (n: nat)
    ensures n <= |s|
  {
    if s != "" && '0' <= s[0] <= '9' then 1 + DigitCount(s[1..]) else 0
  }

  function ReadNumber(s: string): (r: Parsed<int>)
    ensures r.Got? ==> |r.rest| < |s|
  {
    var n := DigitCount(s);
    if n == 0 then Bad else Got(Value(s[..n], 10), s[n..])
  }

  /** A length and so many characters. */
  function ReadIdentifier(s: string): (r: Parsed<string>)
    ensures r.Got? ==> |r.rest| < |s|
  {
    var (n, s1) :- ReadNumber(s);
    if 0 <= n <= |s1| then Got(s1[..n], s1[n..]) else Bad
  }

  // ---- Types ----

  function ReadBuiltin(s: string): (r: Parsed<BuiltinKind>)
    ensures r.Got? ==> |r.rest| < |s|
  {
    if s == "" then Bad
    else
      match s[0]
      case 'v' => Got(Void, s[1..])
      case 'b' => Got(Bool, s[1..])
      case 'c' => Got(Char, s[1..])
      case 'a' => Got(SignedChar, s[1..])
      case 'h' => Got(UnsignedChar, s[1..])
      case 'w' => Got(WChar, s[1..])
      case 's' => Got(Short, s[1..])
      case 'i' => Got(Int, s[1..])
      case 'l' => Got(Long, s[1..])
      case 'x' => Got(LongLong, s[1..])
      case 'n' => Got(Int128, s[1..])
      case 't' => Got(UnsignedShort, s[1..])
      case 'j' => Got(UnsignedInt, s[1..])
      case 'm' => Got(UnsignedLong, s[1..])
      case 'y' => Got(UnsignedLongLong, s[1..])
      case 'o' => Got(UnsignedInt128, s[1..])
      case 'f' => Got(Float, s[1..])
      case 'd' => Got(Double, s[1..])
      case 'e' => Got(LongDouble, s[1..])
      case 'g' => Got(Float128, s[1..])
      case 'D' =>
        if |s| < 2 then Bad
        else if s[1] == 's' then Got(Char16, s[2..])
        else if s[1] == 'i' then Got(Char32, s[2..])
        else if s[1] == 'u' then Got(Char8, s[2..])
        else if s[1] == 'n' then Got(NullPtr, s[2..])
        else Bad
      case _ => Bad
  }

  function ReadType(s: string): (r: Parsed<Type>)
    ensures r.Got? ==> |r.rest| < |s|
    decreases |s|, 0
  {
    if s == "" then Bad
    else
      match s[0]
      case 'P' => (var (t, s1) :- ReadType(s[1..]); Got(Pointer(t), s1))
      case 'R' => (var (t, s1) :- ReadType(s[1..]); Got(Reference(true, t), s1))
      case 'O' => (var (t, s1) :- ReadType(s[1..]); Got(Reference(false, t), s1))
      case 'A' => ReadArray(s[1..])
      case 'F' => ReadFunctionType(s[1..])
      case _ => (var (k, s1) :- ReadBuiltin(s); Got(Builtin(k), s1))
  }

  /** The bound, if there is one, an underscore and the type of the elements. */
  function ReadArray(s: string): (r: Parsed<Type>)
    ensures r.Got? ==> |r.rest| < |s|
    decreases |s|, 1
  {
    if s != "" && s[0] == '_' then (var (t, s1) :- ReadType(s[1..]); Got(IncompleteArray(t), s1))
    else
      var (n, s1) :- ReadNumber(s);
      if n < 0 || s1 == "" || s1[0] != '_' then Bad
      else
        var (t, s2) :- ReadType(s1[1..]);
        Got(ConstantArray(n, t), s2)
  }

  /** The result, the parameters, z for an open list, and E. */
  function ReadFunctionType(s: string): (r: Parsed<Type>)
    ensures r.Got? ==> |r.rest| < |s|
    decreases |s|, 1
  {
    var (t, s1) :- ReadType(s);
    var (ts, s2) :- ReadTypes(s1);
    if s2 != "" && s2[0] == 'E' then Got(Function(t, ts, false), s2[1..])
    else if |s2| >= 2 && s2[0] == 'z' && s2[1] == 'E' then Got(Function(t, ts, true), s2[2..])
    else Bad
  }

  function ReadTypes(s: string): (r: Parsed<seq<Type>>)
    ensures r.Got? ==> |r.rest| <= |s|
    decreases |s|, 1
  {
    if s == "" then Bad
    else if s[0] == 'z' || s[0] == 'E' then Got([], s)
    else
      var (t, s1) :- ReadType(s);
      var (ts, s2) :- ReadTypes(s1);
      Got([t] + ts, s2)
  }

  function ReadQual(s: string): (r: Parsed<QualType>)
    ensures r.Got? ==> |r.rest| < |s|
  {
    var const_ := s != "" && s[0] == 'K';
    var s1 := if const_ then s[1..] else s;
    var volatile := s1 != "" && s1[0] == 'V';
    var s2 := if volatile then s1[1..] else s1;
    var (t, s3) :- ReadType(s2);
    Got(QualType(const_, volatile, t), s3)
  }

  /** Parameters up to the end of the name. */
  function ReadQuals(s: string): Parsed<seq<QualType>>
    decreases |s|
  {
    if s == "" then Got([], "")
    else
      var (q, s1) :- ReadQual(s);
      var (qs, s2) :- ReadQuals(s1);
      Got([q] + qs, s2)
  }

  // ---- Names ----

  /** The parts of a nested name up to E. */
  function ReadPieces(s: string): (r: Parsed<seq<string>>)
    ensures r.Got? ==> |r.rest| < |s|
    decreases |s|
  {
    if s != "" && s[0] == 'E' then Got([], s[1..])
    else if |s| >= 2 && s[0] == 'S' && s[1] == 't' then
      var (xs, s1) :- ReadPieces(s[2..]);
      Got(["std"] + xs, s1)
    else
      var (x, s1) :- ReadIdentifier(s);
      var (xs, s2) :- ReadPieces(s1);
      Got([x] + xs, s2)
  }

  /** Namespaces and the function's own name. */
  function ReadName(s: string): (r: Parsed<(seq<string>, string)>) {
    if s != "" && s[0] == 'N' then
      var (xs, s1) :- ReadPieces(s[1..]);
      if xs == [] then Bad else Got((xs[..|xs| - 1], xs[|xs| - 1]), s1)
    else if |s| >= 2 && s[0] == 'S' && s[1] == 't' then
      var (x, s1) :- ReadIdentifier(s[2..]);
      Got((["std"], x), s1)
    else
      var (x, s1) :- ReadIdentifier(s);
      Got(([], x), s1)
  }

  function Demangle(s: string): Parsed<Signature> {
    if |s| >= 2 && s[0] == '_' && s[1] == 'Z' then
      var (name, s1) :- ReadName(s[2..]);
      var (qs, s2) :- ReadQuals(s1);
      Got(Signature(name.0, name.1, qs), s2)
    else Bad
  }

  // ---- Reading what the mangler writes ----

  lemma {:induction false} CountsDigits(d: string, r: string)
    requires forall k :: 0 <= k < |d| ==> '0' <= d[k] <= '9'
    requires EndsDigits(r)
    ensures DigitCount(d + r) == |d|
  {
    if d == "" {
      assert d + r == r;
    } else {
      assert (d + r)[1..] == d[1..] + r;
      CountsDigits(d[1..], r);
    }
  }

  lemma NumberIsRead(n: nat, r: string)
    requires EndsDigits(r)
    ensures ReadNumber(Dec(n) + r) == Got(n, r)
  {
    hide Numeral, Value, Digit;
    NumeralValue(n, 10);
    CountsDigits(Dec(n), r);
    assert (Dec(n) + r)[..|Dec(n)|] == Dec(n) && (Dec(n) + r)[|Dec(n)|..] == r;
  }

  lemma IdentifierIsRead(x: string, r: string)
    requires ValidName(x)
    ensures ReadIdentifier(SourceName(x) + r) == Got(x, r)
  {
    hide Dec, ReadNumber;
    NumberIsRead(|x|, x + r);
    assert SourceName(x) + r == Dec(|x|) + (x + r);
    assert (x + r)[..|x|] == x && (x + r)[|x|..] == r;
  }

  lemma BuiltinIsRead(k: BuiltinKind, r: string)
    ensures ReadBuiltin(Code(k) + r) == Got(k, r)
    ensures Code(k) != "" && (Code(k) + r)[0] !in "PROAFKVzE"
  {
    var s := Code(k) + r;
    assert s[0] == Code(k)[0] && s[|Code(k)|..] == r;
    assert |Code(k)| == 2 ==> s[1] == Code(k)[1];
  }

  /** What a mangled type starts with. */
  lemma TypeStarts(t: Type, r: string)
    ensures Mangled(t) != "" && (Mangled(t) + r)[0] !in "KVzE"
  {
    hide Code;
    if t.Builtin? {
      BuiltinIsRead(t.kind, r);
    }
  }

  lemma {:induction false} TypeIsRead(t: Type, r: string)
    ensures ReadType(Mangled(t) + r) == Got(t, r)
    decreases t, 1
  {
    hide Code, Dec, ReadArray, ReadFunctionType, ReadBuiltin;
    match t
    case Builtin(k) => BuiltinIsRead(k, r);
    case Pointer(p) =>
      TypeIsRead(p, r);
      assert (Mangled(t) + r)[1..] == Mangled(p) + r;
    case Reference(_, p) =>
      TypeIsRead(p, r);
      assert (Mangled(t) + r)[1..] == Mangled(p) + r;
    case ConstantArray(_, _) => ArrayIsRead(t, r);
    case IncompleteArray(_) => ArrayIsRead(t, r);
    case Function(_, _, _) => FunctionIsRead(t, r);
  }

  lemma {:induction false} ArrayIsRead(t: Type, r: string)
    requires t.ConstantArray? || t.IncompleteArray?
    ensures (Mangled(t) + r)[..1] == "A" && ReadArray((Mangled(t) + r)[1..]) == Got(t, r)
    decreases t, 0
  {
    hide Dec, ReadNumber, ReadType;
    ArrayLayout(t, r);
    TypeIsRead(t.element, r);
    var s, e := (Mangled(t) + r)[1..], Mangled(t.element) + r;
    if t.ConstantArray? {
      assert "_" + Mangled(t.element) + r == "_" + e;
      NumberIsRead(t.size, "_" + e);
      assert ("_" + e)[1..] == e;
      assert IsDigit(Dec(t.size)[0]) && s[0] == Dec(t.size)[0];
    } else {
      assert s[1..] == e;
    }
  }

  lemma {:induction false} FunctionIsRead(t: Type, r: string)
    requires t.Function?
    ensures (Mangled(t) + r)[..1] == "F" && ReadFunctionType((Mangled(t) + r)[1..]) == Got(t, r)
    decreases t, 0
  {
    assert (Mangled(t) + r)[..1] == "F";
    hide Mangled, MangledAll, ReadType, ReadTypes;
    var close := Closing(t.variadic) + r;
    FunctionLayout(t, r);
    TypeIsRead(t.result, MangledAll(t.params) + close);
    TypesAreRead(t.params, close);
    assert close[|Closing(t.variadic)|..] == r;
  }

  lemma {:induction false} TypesAreRead(ts: seq<Type>, r: string)
    requires ClosesList(r)
    ensures ReadTypes(MangledAll(ts) + r) == Got(ts, r)
    decreases ts
  {
    hide Mangled, ReadType;
    if ts == [] {
      assert MangledAll(ts) + r == r;
    } else {
      var rest := MangledAll(ts[1..]) + r;
      assert MangledAll(ts) + r == Mangled(ts[0]) + rest;
      TypeStarts(ts[0], rest);
      TypeIsRead(ts[0], rest);
      TypesAreRead(ts[1..], r);
      assert ts == [ts[0]] + ts[1..];
    }
  }

  lemma QualIsRead(q: QualType, r: string)
    ensures ReadQual(MangledQual(q) + r) == Got(q, r)
  {
    hide Mangled, ReadType;
    var t := Mangled(q.unqualified) + r;
    TypeStarts(q.unqualified, r);
    TypeIsRead(q.unqualified, r);
    var v := (if q.volatile then "V" else "") + t;
    assert MangledQual(q) + r == (if q.const_ then "K" else "") + v;
    assert if q.const_ then (MangledQual(q) + r)[1..] == v else MangledQual(q) + r == v;
    assert if q.volatile then v[1..] == t else v == t;
  }

  lemma {:induction false} QualsAreRead(qs: seq<QualType>)
    ensures ReadQuals(MangledQuals(qs)) == Got(qs, "")
  {
    hide MangledQual, ReadQual;
    if qs != [] {
      QualNotEmpty(qs[0]);
      QualIsRead(qs[0], MangledQuals(qs[1..]));
      QualsAreRead(qs[1..]);
      assert qs == [qs[0]] + qs[1..];
    }
  }

  /** The next piece is read and the others behind it. */
  lemma PieceIsRead(x: string, rest: string, xs: seq<string>, r: string)
    requires x == "std" || ValidName(x)
    requires ReadPieces(rest) == Got(xs, r)
    ensures ReadPieces(Piece(x) + rest) == Got([x] + xs, r)
  {
    hide SourceName, ReadIdentifier;
    var s := Piece(x) + rest;
    if x == "std" {
      assert s[0] == 'S' && s[1] == 't' && s[2..] == rest;
    } else {
      hide ReadPieces;
      NotMarked(x, rest);
      IdentifierIsRead(x, rest);
      IdentifierThenPieces(s, x, rest, xs, r);
    }
  }

  lemma IdentifierThenPieces(s: string, x: string, rest: string, xs: seq<string>, r: string)
    requires s != "" && s[0] !in "ENS"
    requires ReadIdentifier(s) == Got(x, rest) && ReadPieces(rest) == Got(xs, r)
    ensures ReadPieces(s) == Got([x] + xs, r)
  {
    hide ReadIdentifier;
  }

  lemma TailIsRead(x: string, r: string)
    requires ValidName(x)
    ensures ReadPieces(Tail(x, r)) == Got([x], r)
  {
    hide SourceName, ReadIdentifier;
    var rest := "E" + r;
    assert ReadPieces(rest) == Got([], r) by { assert rest[1..] == r; }
    hide ReadPieces;
    NotMarked(x, rest);
    IdentifierIsRead(x, rest);
    IdentifierThenPieces(SourceName(x) + rest, x, rest, [], r);
    assert [x] + [] == [x];
  }

  lemma {:induction false} PiecesAreRead(path: seq<string>, x: string, r: string)
    requires ValidPath(path) && ValidName(x)
    ensures ReadPieces(Pieces(path) + Tail(x, r)) == Got(path + [x], r)
    decreases |path|
  {
    hide ReadPieces, Piece, Tail;
    if path == [] {
      TailIsRead(x, r);
      assert Pieces(path) + Tail(x, r) == Tail(x, r) && path + [x] == [x];
    } else {
      var rest := Pieces(path[1..]) + Tail(x, r);
      PiecesAreRead(path[1..], x, r);
      PieceIsRead(path[0], rest, path[1..] + [x], r);
      assert Pieces(path) + Tail(x, r) == Piece(path[0]) + rest;
      assert path + [x] == [path[0]] + (path[1..] + [x]);
    }
  }

  /** An identifier is not taken for one of the marks in a name. */
  lemma NotMarked(x: string, r: string)
    ensures SourceName(x) + r != "" && (SourceName(x) + r)[0] !in "ENS"
  {
    SourceNameLead(x, r);
  }

  lemma NameIsRead(path: seq<string>, x: string, r: string)
    requires ValidPath(path) && ValidName(x)
    ensures ReadName(QualifiedName(path, x) + r) == Got((path, x), r)
  {
    hide SourceName, ReadIdentifier, ReadPieces, Pieces;
    QualifiedLayout(path, x, r);
    NotMarked(x, r);
    if path == [] {
      IdentifierIsRead(x, r);
    } else if path == ["std"] {
      IdentifierIsRead(x, r);
    } else {
      PiecesAreRead(path, x, r);
      assert (path + [x])[..|path|] == path;
    }
  }

  /** The name of a function reads back as its namespaces, its name and its parameters; no parameters as one void. */
  lemma NamesReadBack(f: Signature)
    requires ValidSignature(f)
    ensures Demangle(MangledFunction(f)) == Got(Signature(f.path, f.name, Normal(f.params)), "")
  {
    hide QualifiedName, MangledQuals, ReadName, ReadQuals;
    var s := MangledFunction(f);
    assert s[2..] == QualifiedName(f.path, f.name) + MangledParams(f.params);
    NameIsRead(f.path, f.name, MangledParams(f.params));
    QualsAreRead(Normal(f.params));
    assert MangledQuals(Normal(f.params)) == MangledParams(f.params) by { VoidForNone(f.params); }
  }

  lemma VoidForNone(qs: seq<QualType>)
    ensures MangledQuals(Normal(qs)) == MangledParams(qs)
  {
    assert [VOID][1..] == [] && MangledQuals([]) == "";
    assert MangledQuals([VOID]) == MangledQual(VOID) + MangledQuals([VOID][1..]);
    assert MangledQual(VOID) == "v";
  }

  // ---- Worked examples ----

  lemma OneDigit(n: nat)
    requires n < 10
    ensures Dec(n) == [(48 + n) as char]
  {
    assert '0' as int == 48;
    assert Numeral(n, 10) == [Digit(n)];
  }

  /** foo(), foo(int) and add(int, float). */
  lemma KnownNames()
    ensures MangledFunction(Signature([], "foo", [])) == "_Z3foov"
    ensures MangledFunction(Signature([], "foo", [QualType(false, false, Builtin(Int))])) == "_Z3fooi"
    ensures var params := [QualType(false, false, Builtin(Int)), QualType(false, false, Builtin(Float))];
            MangledFunction(Signature([], "add", params)) == "_Z3addif"
  {
    hide SourceName, MangledQuals;
    ThreeLetters("foo");
    ThreeLetters("add");
    var i, f := QualType(false, false, Builtin(Int)), QualType(false, false, Builtin(Float));
    KnownParams(i, f);
  }

  lemma ThreeLetters(x: string)
    requires |x| == 3
    ensures SourceName(x) == "3" + x
  {
    OneDigit(3);
    hide Dec;
    assert (48 + 3) as char == '3';
  }

  lemma KnownParams(i: QualType, f: QualType)
    requires i == QualType(false, false, Builtin(Int)) && f == QualType(false, false, Builtin(Float))
    ensures MangledQuals([i]) == "i" && MangledQuals([i, f]) == "if"
  {
    assert [i][1..] == [] && [f][1..] == [] && [i, f][1..] == [f];
    assert MangledQual(i) == "i" && MangledQual(f) == "f";
    hide MangledQual;
    assert MangledQuals([f]) == "f" && MangledQuals([i]) == "i" && MangledQuals([i, f]) == "i" + MangledQuals([f]);
  }

  /** Namespaces from the outside in; const before volatile before the pointer. */
  lemma KnownNested()
    ensures Pieces(["a", "std"]) == "1aSt"
    ensures MangledQual(QualType(true, true, Pointer(Builtin(Char)))) == "KVPc"
  {
    OneDigit(1);
    hide Dec;
    assert ["a", "std"][1..] == ["std"] && ["std"][1..] == [];
    assert Pieces(["std"]) == "St" + Pieces([]);
    assert (48 + 1) as char == '1';
  }
}
