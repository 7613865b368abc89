/** IR types and their bitcode records. */
module TypeRecords {
  import opened Bytes
  import opened LittleEndian
  import opened Numerals
  import opened StringTable

  datatype IRType =
    | VoidType
    | BoolType
    | IntegerType(width: nat)
    | FloatType(width: nat)
    | PointerType(pointee: IRType, addressSpace: nat)
    | ArrayType(count: nat, element: IRType)
    | StructType(name: Name, fields: seq<IRType>, packed: bool)
    | FunctionType(ret: IRType, params: seq<IRType>, varArg: bool)
    | VectorType(lanes: nat, element: IRType)
    | OpaqueType(name: Name)

  /** Numbers fit the fields that hold them: 64 bits for an array's length, 32 bits elsewhere. */
  predicate WellSized(t: IRType) {
    match t
    case IntegerType(w) => w < Pow256(4)
    case FloatType(w) => w < Pow256(4)
    case PointerType(p, a) => WellSized(p) && a < Pow256(4)
    case ArrayType(n, e) => n < Pow256(8) && WellSized(e)
    case StructType(_, fields, _) => |fields| < Pow256(4) && AllWellSized(fields)
    case FunctionType(r, params, _) => WellSized(r) && |params| < Pow256(4) && AllWellSized(params)
    case VectorType(n, e) => n < Pow256(4) && WellSized(e)
    case _ => true
  }

  predicate AllWellSized(ts: seq<IRType>) {
    ts == [] || (WellSized(ts[0]) && AllWellSized(ts[1..]))
  }

  /** The names that a record refers to are in the string table. */
  predicate Registered(t: IRType, strings: seq<Name>) {
    match t
    case PointerType(p, _) => Registered(p, strings)
    case ArrayType(_, e) => Registered(e, strings)
    case StructType(name, fields, _) => name in strings && AllRegistered(fields, strings)
    case FunctionType(r, params, _) => Registered(r, strings) && AllRegistered(params, strings)
    case VectorType(_, e) => Registered(e, strings)
    case OpaqueType(name) => name in strings
    case _ => true
  }

  predicate AllRegistered(ts: seq<IRType>, strings: seq<Name>) {
    ts == [] || (Registered(ts[0], strings) && AllRegistered(ts[1..], strings))
  }

  function Flag(b: bool): Byte {
    if b then 1 else 0
  }

  function NameBytes(strings: seq<Name>, s: Name): seq<Byte> {
    if s in strings then RefBytes(RefOf(strings, s)) else []
  }

  /** The record of a type: a kind byte, then its parts. */
  function TypeBytes(t: IRType, strings: seq<Name>): (s: seq<Byte>)
    ensures s != []
  {
    match t
    case VoidType => [0]
    case BoolType => [1]
    case IntegerType(w) => [2] + LE(4, w)
    case FloatType(w) => [3] + LE(4, w)
    case PointerType(p, a) => [4] + TypeBytes(p, strings) + LE(4, a)
    case ArrayType(n, e) => [5] + LE(8, n) + TypeBytes(e, strings)
    case StructType(name, fields, packed) =>
      [6] + NameBytes(strings, name) + LE(4, |fields|) + TypesBytes(fields, strings) + [Flag(packed)]
    case FunctionType(r, params, varArg) =>
      [7] + TypeBytes(r, strings) + [Flag(varArg)] + LE(4, |params|) + TypesBytes(params, strings)
    case VectorType(n, e) => [8] + LE(4, n) + TypeBytes(e, strings)
    case OpaqueType(name) => [9] + NameBytes(strings, name)
  }

  function TypesBytes(ts: seq<IRType>, strings: seq<Name>): seq<Byte> {
    if ts == [] then [] else TypeBytes(ts[0], strings) + TypesBytes(ts[1..], strings)
  }

  /** The reader's type context: the named structs that exist so far, and the counter for invented names. */
  datatype Context = Context(structs: map<Name, IRType>, anonymous: nat)

  function ReadU8(s: seq<Byte>): (r: Read<Byte>)
    ensures r.Got? ==> |r.rest| == |s| - 1
  {
    if s == [] then Short else Got(s[0], s[1..])
  }

  function Characters(s: string): seq<Byte>
    requires forall k :: 0 <= k < |s| ==> s[k] as int < 0x80
  {
    seq(|s|, k requires 0 <= k < |s| => s[k] as int)
  }

  /** "__anon_struct_" and the counter. */
  function AnonymousName(n: nat): Name {
    [95, 95, 97, 110, 111, 110, 95, 115, 116, 114, 117, 99, 116, 95] + Characters(Dec(n))
  }

  /** A struct of this name if there is one, else a new unpacked one with these fields. */
  function NamedStruct(name: Name, fields: seq<IRType>, ctx: Context): (IRType, Context) {
    if name in ctx.structs then (ctx.structs[name], ctx)
    else
      var t := StructType(name, fields, false);
      (t, ctx.(structs := ctx.structs[name := t]))
  }

  function StructFor(name: Name, fields: seq<IRType>, ctx: Context): (IRType, Context) {
    if name != [] then NamedStruct(name, fields, ctx)
    else NamedStruct(AnonymousName(ctx.anonymous), fields, ctx.(anonymous := ctx.anonymous + 1))
  }

  /** "opaque" */
  const DEFAULT_OPAQUE: Name := [111, 112, 97, 113, 117, 101]

  type TypeRead = Read<(IRType, Context)>

  /** Reading one record. */
  function ReadType(s: seq<Byte>, table: seq<Byte>, ctx: Context): (r: TypeRead)
    ensures r.Got? ==> |r.rest| < |s|
    decreases |s|, 0
  {
    var (kind, s1) :- ReadU8(s);
    match kind
    case 1 => Got((IntegerType(1), ctx), s1)
    case 2 => (var (w, s2) :- ReadLE(4, s1); Got((IntegerType(w), ctx), s2))
    case 3 => (var (w, s2) :- ReadLE(4, s1); Got((FloatType(w), ctx), s2))
    case 4 => ReadPointer(s1, table, ctx)
    case 5 => ReadArray(s1, table, ctx)
    case 6 => ReadStruct(s1, table, ctx)
    case 7 => ReadFunction(s1, table, ctx)
    case 8 => ReadVector(s1, table, ctx)
    case 9 =>
      (var (name, s2) :- ReadString(table, s1);
       Got((OpaqueType(if name == [] then DEFAULT_OPAQUE else name), ctx), s2))
    case _ => Got((VoidType, ctx), s1)
  }

  function ReadPointer(s: seq<Byte>, table: seq<Byte>, ctx: Context): (r: TypeRead)
    ensures r.Got? ==> |r.rest| < |s|
    decreases |s|, 1
  {
    var (p, s1) :- ReadType(s, table, ctx);
    var (a, s2) :- ReadLE(4, s1);
    Got((PointerType(p.0, a), p.1), s2)
  }

  function ReadArray(s: seq<Byte>, table: seq<Byte>, ctx: Context): (r: TypeRead)
    ensures r.Got? ==> |r.rest| < |s|
    decreases |s|, 1
  {
    var (n, s1) :- ReadLE(8, s);
    var (e, s2) :- ReadType(s1, table, ctx);
    Got((ArrayType(n, e.0), e.1), s2)
  }

  function ReadVector(s: seq<Byte>, table: seq<Byte>, ctx: Context): (r: TypeRead)
    ensures r.Got? ==> |r.rest| < |s|
    decreases |s|, 1
  {
    var (n, s1) :- ReadLE(4, s);
    var (e, s2) :- ReadType(s1, table, ctx);
    Got((VectorType(n, e.0), e.1), s2)
  }

  /** The packed flag is read and dropped. */
  function ReadStruct(s: seq<Byte>, table: seq<Byte>, ctx: Context): (r: TypeRead)
    ensures r.Got? ==> |r.rest| < |s|
    decreases |s|, 2
  {
    var (name, s1) :- ReadString(table, s);
    var (n, s2) :- ReadLE(4, s1);
    var (fs, s3) :- ReadTypes(n, s2, table, ctx);
    var (_, s4) :- ReadU8(s3);
    Got(StructFor(name, fs.0, fs.1), s4)
  }

  function ReadFunction(s: seq<Byte>, table: seq<Byte>, ctx: Context): (r: TypeRead)
    ensures r.Got? ==> |r.rest| < |s|
    decreases |s|, 2
  {
    var (t, s1) :- ReadType(s, table, ctx);
    var (varArg, s2) :- ReadU8(s1);
    var (n, s3) :- ReadLE(4, s2);
    var (ps, s4) :- ReadTypes(n, s3, table, t.1);
    Got((FunctionType(t.0, ps.0, varArg != 0), ps.1), s4)
  }

  function ReadTypes(n: nat, s: seq<Byte>, table: seq<Byte>, ctx: Context): (r: Read<(seq<IRType>, Context)>)
    ensures r.Got? ==> |r.rest| <= |s|
    decreases |s|, 1
  {
    if n == 0 then Got(([], ctx), s)
    else
      var (t, s1) :- ReadType(s, table, ctx);
      var (ts, s2) :- ReadTypes(n - 1, s1, table, t.1);
      Got(([t.0] + ts.0, ts.1), s2)
  }

  /**
   What reading a type back makes of it: Bool a one-bit integer, an unnamed opaque type a named one, and a struct
   the one that the context has under its name, else a new unpacked one, an unnamed one under an invented name.
   */
  function Interned(t: IRType, ctx: Context): (IRType, Context) {
    match t
    case VoidType => (t, ctx)
    case BoolType => (IntegerType(1), ctx)
    case IntegerType(_) => (t, ctx)
    case FloatType(_) => (t, ctx)
    case PointerType(p, a) => var r := Interned(p, ctx); (PointerType(r.0, a), r.1)
    case ArrayType(n, e) => var r := Interned(e, ctx); (ArrayType(n, r.0), r.1)
    case StructType(name, fields, _) => var r := InternedAll(fields, ctx); StructFor(name, r.0, r.1)
    case FunctionType(t, params, varArg) =>
      var r := Interned(t, ctx);
      var rs := InternedAll(params, r.1);
      (FunctionType(r.0, rs.0, varArg), rs.1)
    case VectorType(n, e) => var r := Interned(e, ctx); (VectorType(n, r.0), r.1)
    case OpaqueType(name) => (OpaqueType(if name == [] then DEFAULT_OPAQUE else name), ctx)
  }

  function InternedAll(ts: seq<IRType>, ctx: Context): (seq<IRType>, Context) {
    if ts == [] then ([], ctx)
    else
      var r := Interned(ts[0], ctx);
      var rs := InternedAll(ts[1..], r.1);
      ([r.0] + rs.0, rs.1)
  }

  /** The string table that the reader is given. */
  predicate Tables(strings: seq<Name>, table: seq<Byte>) {
    table == TableBytes(strings) && |table| < Pow256(4)
  }

  /** Reading a record back consumes exactly its bytes and interns the type, whatever the context. */
  lemma {:induction false} TypeRoundTrip(t: IRType, strings: seq<Name>, table: seq<Byte>, rest: seq<Byte>, ctx: Context)
    requires Registered(t, strings) && WellSized(t) && Tables(strings, table)
    ensures ReadType(TypeBytes(t, strings) + rest, table, ctx) == Got(Interned(t, ctx), rest)
    decreases t, 2
  {
    hide ReadPointer, ReadArray, ReadVector, ReadStruct, ReadFunction, ReadLE, ReadString, LE, Tables, NameBytes;
    match t
    case PointerType(_, _) => PointerRoundTrip(t, strings, table, rest, ctx);
    case ArrayType(_, _) => ArrayRoundTrip(t, strings, table, rest, ctx);
    case VectorType(_, _) => VectorRoundTrip(t, strings, table, rest, ctx);
    case StructType(_, _, _) => StructRoundTrip(t, strings, table, rest, ctx);
    case FunctionType(_, _, _) => FunctionRoundTrip(t, strings, table, rest, ctx);
    case _ => LeafRoundTrip(t, strings, table, rest, ctx);
  }

  lemma LeafRoundTrip(t: IRType, strings: seq<Name>, table: seq<Byte>, rest: seq<Byte>, ctx: Context)
    requires t.VoidType? || t.BoolType? || t.IntegerType? || t.FloatType? || t.OpaqueType?
    requires Registered(t, strings) && WellSized(t) && Tables(strings, table)
    ensures ReadType(TypeBytes(t, strings) + rest, table, ctx) == Got(Interned(t, ctx), rest)
  {
    hide ReadPointer, ReadArray, ReadVector, ReadStruct, ReadFunction, ReadLE, ReadString, LE, RefBytes, RefOf;
    hide TableBytes;
    var s := TypeBytes(t, strings) + rest;
    match t
    case VoidType => assert s[1..] == rest;
    case BoolType => assert s[1..] == rest;
    case IntegerType(w) => assert s[1..] == LE(4, w) + rest; ReadWritten(4, w, rest);
    case FloatType(w) => assert s[1..] == LE(4, w) + rest; ReadWritten(4, w, rest);
    case OpaqueType(name) =>
      assert s[1..] == RefBytes(RefOf(strings, name)) + rest;
      ReadBack(strings, name, rest);
  }

  /** The record of a pointer, taken apart from the left. */
  lemma PointerFrame(t: IRType, strings: seq<Name>, table: seq<Byte>, rest: seq<Byte>, ctx: Context)
    requires t.PointerType?
    ensures ReadType(TypeBytes(t, strings) + rest, table, ctx)
            == ReadPointer(TypeBytes(t.pointee, strings) + (LE(4, t.addressSpace) + rest), table, ctx)
  {
    hide ReadPointer, ReadArray, ReadVector, ReadStruct, ReadFunction, ReadLE, ReadString, LE, NameBytes, TypesBytes;
    assert (TypeBytes(t, strings) + rest)[1..] == TypeBytes(t.pointee, strings) + (LE(4, t.addressSpace) + rest);
  }

  lemma {:induction false} PointerRoundTrip(t: IRType, strings: seq<Name>, table: seq<Byte>, rest: seq<Byte>,
                                            ctx: Context)
    requires t.PointerType?
    requires Registered(t, strings) && WellSized(t) && Tables(strings, table)
    ensures ReadType(TypeBytes(t, strings) + rest, table, ctx) == Got(Interned(t, ctx), rest)
    decreases t, 1
  {
    hide ReadType, ReadLE, LE, Tables;
    TypeRoundTrip(t.pointee, strings, table, LE(4, t.addressSpace) + rest, ctx);
    ReadWritten(4, t.addressSpace, rest);
    PointerFrame(t, strings, table, rest, ctx);
  }

  /** The record of an array, taken apart from the left. */
  lemma ArrayFrame(t: IRType, strings: seq<Name>, table: seq<Byte>, rest: seq<Byte>, ctx: Context)
    requires t.ArrayType?
    ensures ReadType(TypeBytes(t, strings) + rest, table, ctx)
            == ReadArray(LE(8, t.count) + (TypeBytes(t.element, strings) + rest), table, ctx)
  {
    hide ReadPointer, ReadArray, ReadVector, ReadStruct, ReadFunction, ReadLE, ReadString, LE, NameBytes, TypesBytes;
    assert (TypeBytes(t, strings) + rest)[1..] == LE(8, t.count) + (TypeBytes(t.element, strings) + rest);
  }

  lemma {:induction false} ArrayRoundTrip(t: IRType, strings: seq<Name>, table: seq<Byte>, rest: seq<Byte>,
                                          ctx: Context)
    requires t.ArrayType?
    requires Registered(t, strings) && WellSized(t) && Tables(strings, table)
    ensures ReadType(TypeBytes(t, strings) + rest, table, ctx) == Got(Interned(t, ctx), rest)
    decreases t, 1
  {
    hide ReadType, ReadLE, LE, Tables;
    ReadWritten(8, t.count, TypeBytes(t.element, strings) + rest);
    TypeRoundTrip(t.element, strings, table, rest, ctx);
    ArrayFrame(t, strings, table, rest, ctx);
  }

  /** The record of a vector, taken apart from the left. */
  lemma VectorFrame(t: IRType, strings: seq<Name>, table: seq<Byte>, rest: seq<Byte>, ctx: Context)
    requires t.VectorType?
    ensures ReadType(TypeBytes(t, strings) + rest, table, ctx)
            == ReadVector(LE(4, t.lanes) + (TypeBytes(t.element, strings) + rest), table, ctx)
  {
    hide ReadPointer, ReadArray, ReadVector, ReadStruct, ReadFunction, ReadLE, ReadString, LE, NameBytes, TypesBytes;
    assert (TypeBytes(t, strings) + rest)[1..] == LE(4, t.lanes) + (TypeBytes(t.element, strings) + rest);
  }

  lemma {:induction false} VectorRoundTrip(t: IRType, strings: seq<Name>, table: seq<Byte>, rest: seq<Byte>,
                                           ctx: Context)
    requires t.VectorType?
    requires Registered(t, strings) && WellSized(t) && Tables(strings, table)
    ensures ReadType(TypeBytes(t, strings) + rest, table, ctx) == Got(Interned(t, ctx), rest)
    decreases t, 1
  {
    hide ReadType, ReadLE, LE, Tables;
    ReadWritten(4, t.lanes, TypeBytes(t.element, strings) + rest);
    TypeRoundTrip(t.element, strings, table, rest, ctx);
    VectorFrame(t, strings, table, rest, ctx);
  }

  /** The record of a struct, taken apart from the left. */
  lemma StructFrame(t: IRType, strings: seq<Name>, table: seq<Byte>, rest: seq<Byte>, ctx: Context)
    requires t.StructType?
    ensures ReadType(TypeBytes(t, strings) + rest, table, ctx)
            == ReadStruct(NameBytes(strings, t.name)
            + (LE(4, |t.fields|) + (TypesBytes(t.fields, strings) + ([Flag(t.packed)] + rest))), table, ctx)
  {
    hide ReadPointer, ReadArray, ReadVector, ReadStruct, ReadFunction, ReadLE, ReadString, LE, NameBytes, TypesBytes;
    assert (TypeBytes(t, strings) + rest)[1..]
           == NameBytes(strings, t.name)
           + (LE(4, |t.fields|) + (TypesBytes(t.fields, strings) + ([Flag(t.packed)] + rest)));
  }

  lemma {:induction false} StructRoundTrip(t: IRType, strings: seq<Name>, table: seq<Byte>, rest: seq<Byte>,
                                           ctx: Context)
    requires t.StructType?
    requires Registered(t, strings) && WellSized(t) && Tables(strings, table)
    ensures ReadType(TypeBytes(t, strings) + rest, table, ctx) == Got(Interned(t, ctx), rest)
    decreases t, 1
  {
    hide ReadType, ReadTypes, ReadLE, ReadString, LE, RefOf, RefBytes, TableBytes;
    var rest3 := [Flag(t.packed)] + rest;
    var rest2 := TypesBytes(t.fields, strings) + rest3;
    ReadBack(strings, t.name, LE(4, |t.fields|) + rest2);
    ReadWritten(4, |t.fields|, rest2);
    TypesRoundTrip(t.fields, strings, table, rest3, ctx);
    assert rest3[1..] == rest;
    StructFrame(t, strings, table, rest, ctx);
  }

  /** The record of a function, taken apart from the left. */
  lemma FunctionFrame(t: IRType, strings: seq<Name>, table: seq<Byte>, rest: seq<Byte>, ctx: Context)
    requires t.FunctionType?
    ensures ReadType(TypeBytes(t, strings) + rest, table, ctx)
            == ReadFunction(TypeBytes(t.ret, strings)
            + ([Flag(t.varArg)] + (LE(4, |t.params|) + (TypesBytes(t.params, strings) + rest))), table, ctx)
  {
    hide ReadPointer, ReadArray, ReadVector, ReadStruct, ReadFunction, ReadLE, ReadString, LE, NameBytes, TypesBytes;
    assert (TypeBytes(t, strings) + rest)[1..]
           == TypeBytes(t.ret, strings)
           + ([Flag(t.varArg)] + (LE(4, |t.params|) + (TypesBytes(t.params, strings) + rest)));
  }

  lemma {:induction false} FunctionRoundTrip(t: IRType, strings: seq<Name>, table: seq<Byte>, rest: seq<Byte>,
                                             ctx: Context)
    requires t.FunctionType?
    requires Registered(t, strings) && WellSized(t) && Tables(strings, table)
    ensures ReadType(TypeBytes(t, strings) + rest, table, ctx) == Got(Interned(t, ctx), rest)
    decreases t, 1
  {
    hide ReadType, ReadTypes, ReadLE, LE, Tables;
    var rest2 := TypesBytes(t.params, strings) + rest;
    var rest1 := [Flag(t.varArg)] + (LE(4, |t.params|) + rest2);
    TypeRoundTrip(t.ret, strings, table, rest1, ctx);
    assert rest1[1..] == LE(4, |t.params|) + rest2;
    ReadWritten(4, |t.params|, rest2);
    TypesRoundTrip(t.params, strings, table, rest, Interned(t.ret, ctx).1);
    FunctionFrame(t, strings, table, rest, ctx);
  }

  lemma {:induction false} TypesRoundTrip(ts: seq<IRType>, strings: seq<Name>, table: seq<Byte>, rest: seq<Byte>,
                                          ctx: Context)
    requires AllRegistered(ts, strings) && AllWellSized(ts) && Tables(strings, table)
    ensures ReadTypes(|ts|, TypesBytes(ts, strings) + rest, table, ctx) == Got(InternedAll(ts, ctx), rest)
    decreases ts, 3
  {
    hide ReadType, TypeBytes, Interned, Tables;
    if ts == [] {
      assert TypesBytes(ts, strings) + rest == rest;
    } else {
      var rest1 := TypesBytes(ts[1..], strings) + rest;
      assert TypesBytes(ts, strings) + rest == TypeBytes(ts[0], strings) + rest1;
      TypeRoundTrip(ts[0], strings, table, rest1, ctx);
      TypesRoundTrip(ts[1..], strings, table, rest, Interned(ts[0], ctx).1);
    }
  }
}
