/** The mangled names of free functions, as in section 5.1 of the Itanium C++ ABI, and why no two share one. */
module MangledNames {
  import opened Numerals

  datatype BuiltinKind =
    | Void | Bool | Char | SignedChar | UnsignedChar | WChar | Char16 | Char32 | Char8
    | Short | Int | Long | LongLong | Int128
    | UnsignedShort | UnsignedInt | UnsignedLong | UnsignedLongLong | UnsignedInt128
    | Float | Double | LongDouble | Float128 | NullPtr

  datatype Type =
    | Builtin(kind: BuiltinKind)
    | Pointer(pointee: Type)
    | Reference(lvalue: bool, referenced: Type)
    | ConstantArray(size: nat, element: Type)
    | IncompleteArray(element: Type)
    | Function(result: Type, params: seq<Type>, variadic: bool)

  /** Qualifiers sit on the outside only: inside a type there is no place for them. */
  datatype QualType = QualType(const_: bool, volatile: bool, unqualified: Type)

  function Code(k: BuiltinKind): string {
    match k
    case Void => "v"
    case Bool => "b"
    case Char => "c"
    case SignedChar => "a"
    case UnsignedChar => "h"
    case WChar => "w"
    case Char16 => "Ds"
    case Char32 => "Di"
    case Char8 => "Du"
    case Short => "s"
    case Int => "i"
    case Long => "l"
    case LongLong => "x"
    case Int128 => "n"
    case UnsignedShort => "t"
    case UnsignedInt => "j"
    case UnsignedLong => "m"
    case UnsignedLongLong => "y"
    case UnsignedInt128 => "o"
    case Float => "f"
    case Double => "d"
    case LongDouble => "e"
    case Float128 => "g"
    case NullPtr => "Dn"
  }

  function Mangled(t: Type): string {
    match t
    case Builtin(k) => Code(k)
    case Pointer(p) => "P" + Mangled(p)
    case Reference(l, r) => (if l then "R" else "O") + Mangled(r)
    case ConstantArray(n, e) => "A" + Dec(n) + "_" + Mangled(e)
    case IncompleteArray(e) => "A_" + Mangled(e)
    case Function(r, ps, v) => "F" + Mangled(r) + MangledAll(ps) + (if v then "z" else "") + "E"
  }

  function MangledAll(ts: seq<Type>): string {
    if ts == [] then "" else Mangled(ts[0]) + MangledAll(ts[1..])
  }

  function MangledQual(q: QualType): string {
    (if q.const_ then "K" else "") + (if q.volatile then "V" else "") + Mangled(q.unqualified)
  }

  function MangledQuals(qs: seq<QualType>): string {
    if qs == [] then "" else MangledQual(qs[0]) + MangledQuals(qs[1..])
  }

  function MangledParams(qs: seq<QualType>): string {
    if qs == [] then "v" else MangledQuals(qs)
  }

  function SourceName(x: string): string {
    Dec(|x|) + x
  }

  /** A namespace in a nested name. */
  function Piece(x: string): string {
    if x == "std" then "St" else SourceName(x)
  }

  function Pieces(path: seq<string>): string {
    if path == [] then "" else Piece(path[0]) + Pieces(path[1..])
  }

  /** The named namespaces around a function, outermost first, its name and its parameters' types. */
  datatype Signature = Signature(path: seq<string>, name: string, params: seq<QualType>)

  function QualifiedName(path: seq<string>, name: string): string {
    if path == [] then SourceName(name)
    else if path == ["std"] then "St" + SourceName(name)
    else "N" + Pieces(path) + SourceName(name) + "E"
  }

  function MangledFunction(f: Signature): string {
    "_Z" + QualifiedName(f.path, f.name) + MangledParams(f.params)
  }

  // ---- Builtin codes ----

  function KindOf(code: string): BuiltinKind {
    if code == "v" then Void
    else if code == "b" then Bool
    else if code == "c" then Char
    else if code == "a" then SignedChar
    else if code == "h" then UnsignedChar
    else if code == "w" then WChar
    else if code == "Ds" then Char16
    else if code == "Di" then Char32
    else if code == "Du" then Char8
    else if code == "s" then Short
    else if code == "i" then Int
    else if code == "l" then Long
    else if code == "x" then LongLong
    else if code == "n" then Int128
    else if code == "t" then UnsignedShort
    else if code == "j" then UnsignedInt
    else if code == "m" then UnsignedLong
    else if code == "y" then UnsignedLongLong
    else if code == "o" then UnsignedInt128
    else if code == "f" then Float
    else if code == "d" then Double
    else if code == "e" then LongDouble
    else if code == "g" then Float128
    else NullPtr
  }

  lemma CodeIsDecodable(k: BuiltinKind)
    ensures KindOf(Code(k)) == k
  {
  }

  lemma CodeShape(k: BuiltinKind)
    ensures |Code(k)| == if Code(k)[0] == 'D' then 2 else 1
    ensures IsBuiltinLead(Code(k)[0])
  {
  }

  lemma CodesArePrefixFree(j: BuiltinKind, k: BuiltinKind, r: string, q: string)
    requires Code(j) + r == Code(k) + q
    ensures j == k && r == q
  {
    hide Code, KindOf;
    CodeIsDecodable(j);
    CodeIsDecodable(k);
    CodeShape(j);
    CodeShape(k);
    var s := Code(j) + r;
    assert s[0] == Code(j)[0] == Code(k)[0];
    assert s[..|Code(j)|] == Code(j) && s[..|Code(k)|] == Code(k);
    assert s[|Code(j)|..] == r && s[|Code(k)|..] == q;
  }

  // ---- Types ----

  /** The first character of a mangled type tells how the type is built. */
  function Lead(t: Type): char {
    match t
    case Builtin(_) => 'a'
    case Pointer(_) => 'P'
    case Reference(l, _) => if l then 'R' else 'O'
    case ConstantArray(_, _) => 'A'
    case IncompleteArray(_) => 'A'
    case Function(_, _, _) => 'F'
  }

  predicate IsBuiltinLead(c: char) {
    c == 'D' || 'a' <= c <= 'y'
  }

  lemma LeadTells(t: Type, r: string)
    ensures Mangled(t) != "" && (Mangled(t) + r)[0] == Mangled(t)[0]
    ensures if t.Builtin? then IsBuiltinLead(Mangled(t)[0]) else Mangled(t)[0] == Lead(t)
  {
    if t.Builtin? {
      CodeShape(t.kind);
    }
  }

  /** Stands behind a parameter list: neither character begins a type. */
  predicate ClosesList(s: string) {
    s != "" && s[0] in "zE"
  }

  /** No mangled type is the beginning of another one: what follows it can be anything. */
  lemma {:induction false} TypesArePrefixFree(t: Type, u: Type, r: string, q: string)
    requires Mangled(t) + r == Mangled(u) + q
    ensures t == u && r == q
    decreases t
  {
    hide Code, Dec;
    LeadTells(t, r);
    LeadTells(u, q);
    match t
    case Builtin(k) =>
      assert u.Builtin?;
      CodesArePrefixFree(k, u.kind, r, q);
    case Pointer(p) =>
      TypesArePrefixFree(p, u.pointee, r, q) by { Behind("P", Mangled(p), r, Mangled(u.pointee), q); }
    case Reference(l, p) =>
      var c := if l then "R" else "O";
      assert u.Reference? && u.lvalue == l;
      TypesArePrefixFree(p, u.referenced, r, q) by { Behind(c, Mangled(p), r, Mangled(u.referenced), q); }
    case ConstantArray(_, _) =>
      ArraysArePrefixFree(t, u, r, q);
    case IncompleteArray(_) =>
      ArraysArePrefixFree(t, u, r, q);
    case Function(_, _, _) =>
      FunctionsArePrefixFree(t, u, r, q);
  }

  lemma Behind(c: string, s: string, r: string, t: string, q: string)
    requires c + s + r == c + t + q
    ensures s + r == t + q
  {
    assert s + r == (c + s + r)[|c|..];
    assert t + q == (c + t + q)[|c|..];
  }

  lemma ArrayLayout(t: Type, r: string)
    requires t.ConstantArray? || t.IncompleteArray?
    ensures |Mangled(t)| > 1
    ensures t.ConstantArray? ==> (Mangled(t) + r)[1..] == Dec(t.size) + ("_" + Mangled(t.element) + r)
    ensures t.IncompleteArray? ==> (Mangled(t) + r)[1..] == "_" + Mangled(t.element) + r
  {
    hide Dec;
  }

  lemma {:induction false} ArraysArePrefixFree(t: Type, u: Type, r: string, q: string)
    requires t.ConstantArray? || t.IncompleteArray?
    requires u.ConstantArray? || u.IncompleteArray?
    requires Mangled(t) + r == Mangled(u) + q
    ensures t == u && r == q
    decreases t, 0
  {
    hide Dec;
    hide Mangled;
    var s, v := Mangled(t) + r, Mangled(u) + q;
    var a, b := "_" + Mangled(t.element) + r, "_" + Mangled(u.element) + q;
    ArrayLayout(t, r);
    ArrayLayout(u, q);
    assert if t.ConstantArray? then IsDigit(s[1]) else s[1] == '_';
    assert if u.ConstantArray? then IsDigit(v[1]) else v[1] == '_';
    if t.ConstantArray? {
      DecIsPrefixFree(t.size, u.size, a, b);
    }
    assert a == b;
    Behind("_", Mangled(t.element), r, Mangled(u.element), q);
    TypesArePrefixFree(t.element, u.element, r, q);
  }

  function Closing(variadic: bool): string {
    (if variadic then "z" else "") + "E"
  }

  lemma FunctionLayout(t: Type, r: string)
    requires t.Function?
    ensures |Mangled(t)| > 0
            && (Mangled(t) + r)[1..] == Mangled(t.result) + (MangledAll(t.params) + (Closing(t.variadic) + r))
  {
    hide MangledAll;
    var s := Mangled(t);
    assert s == "F" + Mangled(t.result) + MangledAll(t.params) + (if t.variadic then "z" else "") + "E";
    assert s[1..] == Mangled(t.result) + (MangledAll(t.params) + Closing(t.variadic));
    assert (s + r)[1..] == s[1..] + r;
  }

  lemma {:induction false} FunctionsArePrefixFree(t: Type, u: Type, r: string, q: string)
    requires t.Function? && u.Function?
    requires Mangled(t) + r == Mangled(u) + q
    ensures t == u && r == q
    decreases t, 0
  {
    var a, b := Closing(t.variadic) + r, Closing(u.variadic) + q;
    hide Mangled, MangledAll;
    FunctionLayout(t, r);
    FunctionLayout(u, q);
    TypesArePrefixFree(t.result, u.result, MangledAll(t.params) + a, MangledAll(u.params) + b);
    ListsArePrefixFree(t.params, u.params, a, b);
    ClosingsArePrefixFree(t.variadic, u.variadic, r, q);
  }

  lemma ClosingsArePrefixFree(v: bool, w: bool, r: string, q: string)
    requires Closing(v) + r == Closing(w) + q
    ensures v == w && r == q
  {
    var s, t := Closing(v) + r, Closing(w) + q;
    assert s[0] == Closing(v)[0] && t[0] == Closing(w)[0];
    assert s[|Closing(v)|..] == r && t[|Closing(w)|..] == q;
  }

  lemma {:induction false} ListsArePrefixFree(ts: seq<Type>, us: seq<Type>, r: string, q: string)
    requires ClosesList(r) && ClosesList(q)
    requires MangledAll(ts) + r == MangledAll(us) + q
    ensures ts == us && r == q
    decreases ts
  {
    hide Mangled;
    if ts != [] {
      LeadTells(ts[0], MangledAll(ts[1..]) + r);
      assert MangledAll(ts) + r == Mangled(ts[0]) + (MangledAll(ts[1..]) + r);
    }
    if us != [] {
      LeadTells(us[0], MangledAll(us[1..]) + q);
      assert MangledAll(us) + q == Mangled(us[0]) + (MangledAll(us[1..]) + q);
    }
    if ts != [] && us != [] {
      TypesArePrefixFree(ts[0], us[0], MangledAll(ts[1..]) + r, MangledAll(us[1..]) + q);
      ListsArePrefixFree(ts[1..], us[1..], r, q);
    } else {
      assert MangledAll(ts) + r == r || MangledAll(us) + q == q;
    }
  }

  // ---- Parameter lists ----

  /** A list of types stands at the very end of a name, so here nothing follows. */
  lemma {:induction false} QualsAreInjective(ps: seq<QualType>, qs: seq<QualType>)
    requires MangledQuals(ps) == MangledQuals(qs)
    ensures ps == qs
  {
    hide MangledQual;
    if ps != [] {
      QualNotEmpty(ps[0]);
    }
    if qs != [] {
      QualNotEmpty(qs[0]);
    }
    if ps != [] && qs != [] {
      QualsArePrefixFree(ps[0], qs[0], MangledQuals(ps[1..]), MangledQuals(qs[1..]));
      QualsAreInjective(ps[1..], qs[1..]);
    }
  }

  lemma QualNotEmpty(q: QualType)
    ensures MangledQual(q) != ""
  {
    LeadTells(q.unqualified, "");
  }

  /** The same for a type with its qualifiers. */
  lemma QualsArePrefixFree(p: QualType, q: QualType, r: string, s: string)
    requires MangledQual(p) + r == MangledQual(q) + s
    ensures p == q && r == s
  {
    hide Mangled, Lead;
    var a, b := Mangled(p.unqualified) + r, Mangled(q.unqualified) + s;
    LeadTells(p.unqualified, r);
    LeadTells(q.unqualified, s);
    NoQualifier(p.unqualified);
    NoQualifier(q.unqualified);
    QualLayout(p, r);
    QualLayout(q, s);
    assert p.const_ == q.const_;
    assert p.volatile == q.volatile;
    Behind(Qualifiers(p), Mangled(p.unqualified), r, Mangled(q.unqualified), s);
    TypesArePrefixFree(p.unqualified, q.unqualified, r, s);
  }

  lemma NoQualifier(t: Type)
    ensures Mangled(t) != "" && Mangled(t)[0] != 'K' && Mangled(t)[0] != 'V'
  {
    hide Mangled;
    LeadTells(t, "");
  }

  function Qualifiers(q: QualType): string {
    (if q.const_ then "K" else "") + (if q.volatile then "V" else "")
  }

  lemma QualLayout(q: QualType, r: string)
    requires Mangled(q.unqualified) != ""
    ensures MangledQual(q) + r == Qualifiers(q) + Mangled(q.unqualified) + r
    ensures (MangledQual(q) + r)[0] == if q.const_ then 'K' else if q.volatile then 'V' else Mangled(q.unqualified)[0]
    ensures q.const_ ==> (MangledQual(q) + r)[1] == if q.volatile then 'V' else Mangled(q.unqualified)[0]
  {
    hide Mangled;
  }

  const VOID := QualType(false, false, Builtin(BuiltinKind.Void))

  /** An empty list is written like a list of one void, which in the language is the same list. */
  function Normal(qs: seq<QualType>): seq<QualType> {
    if qs == [] then [VOID] else qs
  }

  lemma ParamsAreInjective(ps: seq<QualType>, qs: seq<QualType>)
    ensures MangledParams(ps) == MangledParams(qs) <==> Normal(ps) == Normal(qs)
  {
    assert MangledQuals([VOID]) == MangledQual(VOID) + MangledQuals([VOID][1..]) == "v";
    if MangledParams(ps) == MangledParams(qs) {
      QualsAreInjective(Normal(ps), Normal(qs));
    }
  }

  // ---- Names ----

  /** What the language calls an identifier does not begin with a digit. */
  predicate ValidName(x: string) {
    x != "" && !IsDigit(x[0])
  }

  predicate ValidPath(path: seq<string>) {
    forall k :: 0 <= k < |path| ==> ValidName(path[k])
  }

  lemma SourceNamesArePrefixFree(x: string, y: string, r: string, q: string)
    requires ValidName(x) && ValidName(y) && SourceName(x) + r == SourceName(y) + q
    ensures x == y && r == q
  {
    hide Dec;
    assert SourceName(x) + r == Dec(|x|) + (x + r);
    assert SourceName(y) + q == Dec(|y|) + (y + q);
    DecIsPrefixFree(|x|, |y|, x + r, y + q);
    assert x == (x + r)[..|x|] && r == (x + r)[|x|..];
    assert y == (y + q)[..|y|] && q == (y + q)[|y|..];
  }

  lemma PieceLead(x: string, r: string)
    ensures Piece(x) != ""
    ensures if x == "std" then (Piece(x) + r)[0] == 'S' else IsDigit((Piece(x) + r)[0])
  {
    hide Dec;
  }

  lemma PiecesArePrefixFree(x: string, y: string, r: string, q: string)
    requires ValidName(x) && ValidName(y) && Piece(x) + r == Piece(y) + q
    ensures x == y && r == q
  {
    hide SourceName;
    PieceLead(x, r);
    PieceLead(y, q);
    if x == "std" {
      assert r == (Piece(x) + r)[2..] && q == (Piece(y) + q)[2..];
    } else {
      SourceNamesArePrefixFree(x, y, r, q);
    }
  }

  /** How a nested name goes on once its namespaces are read: the function's own name, then E. */
  function Tail(name: string, r: string): string {
    SourceName(name) + ("E" + r)
  }

  lemma SourceNameLead(x: string, r: string)
    ensures SourceName(x) != ""
    ensures IsDigit((SourceName(x) + r)[0])
  {
    hide Dec;
  }

  lemma RestLead(q: seq<string>, y: string, s: string)
    ensures (Pieces(q) + Tail(y, s)) != "" && (Pieces(q) + Tail(y, s))[0] != 'E'
  {
    hide SourceName, Piece;
    if q == [] {
      SourceNameLead(y, "E" + s);
      assert Pieces(q) + Tail(y, s) == Tail(y, s);
    } else {
      PieceLead(q[0], Pieces(q[1..]) + Tail(y, s));
      assert Pieces(q) + Tail(y, s) == Piece(q[0]) + (Pieces(q[1..]) + Tail(y, s));
    }
  }

  /** A function's own name is never taken for a namespace: E follows the one and not the other. */
  lemma MorePieces(x: string, r: string, q: seq<string>, y: string, s: string)
    requires q != [] && ValidPath(q) && ValidName(x)
    ensures Tail(x, r) != Pieces(q) + Tail(y, s)
  {
    hide SourceName, Pieces;
    var rest := Pieces(q[1..]) + Tail(y, s);
    PiecesFirst(q, Tail(y, s));
    SourceNameLead(x, "E" + r);
    PieceLead(q[0], rest);
    RestLead(q[1..], y, s);
    if Tail(x, r) == Pieces(q) + Tail(y, s) && q[0] != "std" {
      SourceNamesArePrefixFree(x, q[0], "E" + r, rest);
    }
  }

  lemma PiecesFirst(q: seq<string>, r: string)
    requires q != []
    ensures Pieces(q) + r == Piece(q[0]) + (Pieces(q[1..]) + r)
  {
    hide Piece;
  }

  /** A nested name splits in one way only: the last identifier before E is the function's. */
  lemma {:induction false} NestedNamesArePrefixFree(p: seq<string>, q: seq<string>, x: string, y: string, r: string,
                                                   s: string)
    requires ValidPath(p) && ValidPath(q) && ValidName(x) && ValidName(y)
    requires Pieces(p) + Tail(x, r) == Pieces(q) + Tail(y, s)
    ensures p == q && x == y && r == s
    decreases |p|
  {
    hide SourceName, Piece;
    if p == [] && q == [] {
      assert Pieces(p) + Tail(x, r) == Tail(x, r) && Pieces(q) + Tail(y, s) == Tail(y, s);
      SourceNamesArePrefixFree(x, y, "E" + r, "E" + s);
      assert r == ("E" + r)[1..] && s == ("E" + s)[1..];
    } else if p == [] {
      assert Pieces(p) + Tail(x, r) == Tail(x, r);
      MorePieces(x, r, q, y, s);
    } else if q == [] {
      assert Pieces(q) + Tail(y, s) == Tail(y, s);
      MorePieces(y, s, p, x, r);
    } else {
      assert Pieces(p) + Tail(x, r) == Piece(p[0]) + (Pieces(p[1..]) + Tail(x, r));
      assert Pieces(q) + Tail(y, s) == Piece(q[0]) + (Pieces(q[1..]) + Tail(y, s));
      PiecesArePrefixFree(p[0], q[0], Pieces(p[1..]) + Tail(x, r), Pieces(q[1..]) + Tail(y, s));
      NestedNamesArePrefixFree(p[1..], q[1..], x, y, r, s);
      assert p == [p[0]] + p[1..] && q == [q[0]] + q[1..];
    }
  }

  lemma QualifiedLead(path: seq<string>, name: string, r: string)
    ensures QualifiedName(path, name) != ""
    ensures var c := (QualifiedName(path, name) + r)[0];
            if path == [] then IsDigit(c) else if path == ["std"] then c == 'S' else c == 'N'
  {
    hide SourceName, Pieces;
    var n := QualifiedName(path, name);
    SourceNameLead(name, "");
    assert SourceName(name) + "" == SourceName(name);
    assert (n + r)[0] == n[0];
  }

  lemma QualifiedNamesArePrefixFree(p: seq<string>, q: seq<string>, x: string, y: string, r: string, s: string)
    requires ValidPath(p) && ValidPath(q) && ValidName(x) && ValidName(y)
    requires QualifiedName(p, x) + r == QualifiedName(q, y) + s
    ensures p == q && x == y && r == s
  {
    hide SourceName, Pieces, ValidPath;
    QualifiedLead(p, x, r);
    QualifiedLead(q, y, s);
    assert (p == []) == (q == []) && (p == ["std"]) == (q == ["std"]);
    QualifiedLayout(p, x, r);
    QualifiedLayout(q, y, s);
    hide QualifiedName;
    if p == [] || p == ["std"] {
      SourceNamesArePrefixFree(x, y, r, s);
    } else {
      NestedNamesArePrefixFree(p, q, x, y, r, s);
    }
  }

  lemma SourceNameLength(x: string)
    ensures |SourceName(x)| > |x|
  {
    hide Dec;
  }

  lemma QualifiedLayout(path: seq<string>, name: string, r: string)
    requires name != ""
    ensures |QualifiedName(path, name)| > 1
    ensures path == [] ==> QualifiedName(path, name) + r == SourceName(name) + r
    ensures path == ["std"] ==> (QualifiedName(path, name) + r)[2..] == SourceName(name) + r
    ensures path != [] && path != ["std"] ==> (QualifiedName(path, name) + r)[1..] == Pieces(path) + Tail(name, r)
  {
    hide SourceName, Pieces;
    SourceNameLength(name);
    var n := QualifiedName(path, name);
    if path != [] && path != ["std"] {
      assert n[1..] == Pieces(path) + (SourceName(name) + "E");
      assert (n + r)[1..] == n[1..] + r;
    }
  }

  predicate ValidSignature(f: Signature) {
    ValidPath(f.path) && ValidName(f.name)
  }

  /** Two functions get the same name exactly when they agree in namespaces, name and parameter types. */
  lemma MangledFunctionIsInjective(f: Signature, g: Signature)
    requires ValidSignature(f) && ValidSignature(g)
    ensures MangledFunction(f) == MangledFunction(g) <==>
            f.path == g.path && f.name == g.name && Normal(f.params) == Normal(g.params)
  {
    hide QualifiedName, MangledParams, Normal;
    ParamsAreInjective(f.params, g.params);
    if MangledFunction(f) == MangledFunction(g) {
      assert MangledFunction(f)[2..] == QualifiedName(f.path, f.name) + MangledParams(f.params);
      assert MangledFunction(g)[2..] == QualifiedName(g.path, g.name) + MangledParams(g.params);
      QualifiedNamesArePrefixFree(f.path, g.path, f.name, g.name, MangledParams(f.params), MangledParams(g.params));
    }
  }
}
