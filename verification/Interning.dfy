/** Which types come back from bitcode as they were written, given the structs that the reader knows already. */
module Interning {
  import opened Bytes
  import opened LittleEndian
  import opened StringTable
  import opened TypeRecords

  /** No part of the type is lost: no Bool, no packed or unnamed struct, no unnamed opaque type. */
  predicate Lossless(t: IRType) {
    match t
    case BoolType => false
    case PointerType(p, _) => Lossless(p)
    case ArrayType(_, e) => Lossless(e)
    case StructType(name, fields, packed) => name != [] && !packed && AllLossless(fields)
    case FunctionType(r, params, _) => Lossless(r) && AllLossless(params)
    case VectorType(_, e) => Lossless(e)
    case OpaqueType(name) => name != []
    case _ => true
  }

  predicate AllLossless(ts: seq<IRType>) {
    ts == [] || (Lossless(ts[0]) && AllLossless(ts[1..]))
  }

  /** The structs in a type, the type itself included. */
  function Structs(t: IRType): set<IRType> {
    match t
    case PointerType(p, _) => Structs(p)
    case ArrayType(_, e) => Structs(e)
    case StructType(_, fields, _) => {t} + StructsOf(fields)
    case FunctionType(r, params, _) => Structs(r) + StructsOf(params)
    case VectorType(_, e) => Structs(e)
    case _ => {}
  }

  function StructsOf(ts: seq<IRType>): set<IRType> {
    if ts == [] then {} else Structs(ts[0]) + StructsOf(ts[1..])
  }

  /** Structs of one name are one struct. */
  predicate OneBody(types: set<IRType>) {
    forall s, u :: s in types && u in types && s.StructType? && u.StructType? && s.name == u.name ==> s == u
  }

  function Known(ctx: Context): set<IRType> {
    set name | name in ctx.structs :: ctx.structs[name]
  }

  predicate Registers(ctx: Context, name: Name)
    requires name in ctx.structs
  {
    var t := ctx.structs[name];
    t.StructType? && t.name == name && Lossless(t) && Structs(t) <= Known(ctx)
  }

  /** Every struct that the context knows is registered under its own name, and so are the structs inside it. */
  predicate Proper(ctx: Context) {
    forall name :: name in ctx.structs ==> Registers(ctx, name)
  }

  predicate Extends(ctx: Context, more: Context) {
    forall name :: name in ctx.structs ==> name in more.structs && more.structs[name] == ctx.structs[name]
  }

  // ---- What the reader makes is always of one kind ----

  /** A type that has been read, and the context after it. */
  predicate Settled(ctx: Context, t: IRType, after: Context) {
    Proper(after) && Extends(ctx, after) && Lossless(t) && Structs(t) <= Known(after)
  }

  predicate AllSettled(ctx: Context, ts: seq<IRType>, after: Context) {
    Proper(after) && Extends(ctx, after) && AllLossless(ts) && StructsOf(ts) <= Known(after)
  }

  lemma KnownGrows(ctx: Context, more: Context)
    requires Extends(ctx, more)
    ensures Known(ctx) <= Known(more)
  {
    forall t | t in Known(ctx) ensures t in Known(more) {
      var name :| name in ctx.structs && ctx.structs[name] == t;
      assert more.structs[name] == t;
    }
  }

  lemma NamedStructSettles(name: Name, fields: seq<IRType>, ctx: Context)
    requires name != [] && Proper(ctx) && AllLossless(fields) && StructsOf(fields) <= Known(ctx)
    ensures Settled(ctx, NamedStruct(name, fields, ctx).0, NamedStruct(name, fields, ctx).1)
    ensures NamedStruct(name, fields, ctx).0.StructType? && NamedStruct(name, fields, ctx).0.name == name
    ensures Known(NamedStruct(name, fields, ctx).1) == Known(ctx) + {NamedStruct(name, fields, ctx).0}
  {
    var (t, after) := NamedStruct(name, fields, ctx);
    KnownGrows(ctx, after);
    assert t == after.structs[name];
    if name in ctx.structs {
      assert Registers(ctx, name);
    } else {
      forall n | n in after.structs ensures Registers(after, n) {
        if n != name {
          assert Registers(ctx, n);
        }
      }
    }
    assert Known(after) == Known(ctx) + {t};
  }

  lemma StructForSettles(name: Name, fields: seq<IRType>, ctx: Context)
    requires Proper(ctx) && AllLossless(fields) && StructsOf(fields) <= Known(ctx)
    ensures Settled(ctx, StructFor(name, fields, ctx).0, StructFor(name, fields, ctx).1)
    ensures StructFor(name, fields, ctx).0.StructType?
  {
    if name != [] {
      NamedStructSettles(name, fields, ctx);
    } else {
      var c := ctx.(anonymous := ctx.anonymous + 1);
      assert forall n :: n in c.structs ==> Registers(ctx, n) && Known(c) == Known(ctx);
      NamedStructSettles(AnonymousName(ctx.anonymous), fields, c);
    }
  }

  lemma {:induction false} InternedSettles(t: IRType, ctx: Context)
    requires Proper(ctx)
    ensures Settled(ctx, Interned(t, ctx).0, Interned(t, ctx).1)
    decreases t
  {
    hide Proper, Extends, Known, StructFor;
    match t
    case PointerType(p, _) => InternedSettles(p, ctx);
    case ArrayType(_, e) => InternedSettles(e, ctx);
    case VectorType(_, e) => InternedSettles(e, ctx);
    case StructType(name, fields, _) =>
      InternedAllSettles(fields, ctx);
      var r := InternedAll(fields, ctx);
      StructForSettles(name, r.0, r.1);
      ExtendsThrough(ctx, r.1, Interned(t, ctx).1);
    case FunctionType(ret, params, _) =>
      InternedSettles(ret, ctx);
      var r := Interned(ret, ctx);
      InternedAllSettles(params, r.1);
      ExtendsThrough(ctx, r.1, Interned(t, ctx).1);
    case _ => Same(ctx);
  }

  lemma Same(ctx: Context)
    ensures Extends(ctx, ctx)
  {
  }

  lemma ExtendsThrough(a: Context, b: Context, c: Context)
    requires Extends(a, b) && Extends(b, c)
    ensures Extends(a, c) && Known(a) <= Known(b) <= Known(c)
  {
    KnownGrows(a, b);
    KnownGrows(b, c);
  }

  lemma {:induction false} InternedAllSettles(ts: seq<IRType>, ctx: Context)
    requires Proper(ctx)
    ensures AllSettled(ctx, InternedAll(ts, ctx).0, InternedAll(ts, ctx).1)
    decreases ts
  {
    hide Proper, Extends, Known, Interned, Lossless;
    if ts == [] {
      Same(ctx);
    } else {
      InternedSettles(ts[0], ctx);
      var r := Interned(ts[0], ctx);
      InternedAllSettles(ts[1..], r.1);
      ExtendsThrough(ctx, r.1, InternedAll(ts, ctx).1);
    }
  }

  // ---- When a type comes back as it was ----

  lemma FewerOneBody(types: set<IRType>, fewer: set<IRType>)
    requires OneBody(types) && fewer <= types
    ensures OneBody(fewer)
  {
  }

  lemma ProperOneBody(ctx: Context)
    requires Proper(ctx)
    ensures OneBody(Known(ctx))
  {
    forall s, u | s in Known(ctx) && u in Known(ctx) && s.StructType? && u.StructType? && s.name == u.name
      ensures s == u
    {
      var n :| n in ctx.structs && ctx.structs[n] == s;
      var m :| m in ctx.structs && ctx.structs[m] == u;
      assert Registers(ctx, n) && Registers(ctx, m);
    }
  }

  lemma NamedStructIsSelf(t: IRType, ctx: Context)
    requires t.StructType? && Lossless(t) && Proper(ctx) && OneBody({t} + Known(ctx))
    ensures NamedStruct(t.name, t.fields, ctx).0 == t
  {
    if t.name in ctx.structs {
      assert Registers(ctx, t.name);
      assert ctx.structs[t.name] in Known(ctx);
    }
  }

  /** What the context knows afterwards is what it knew and the structs of the type. */
  lemma {:induction false} InternedIsSelf(t: IRType, ctx: Context)
    requires Proper(ctx) && Lossless(t) && OneBody(Structs(t) + Known(ctx))
    ensures Interned(t, ctx).0 == t && Known(Interned(t, ctx).1) == Known(ctx) + Structs(t)
    decreases t
  {
    hide Proper, Known, OneBody, NamedStruct;
    match t
    case PointerType(p, _) => InternedIsSelf(p, ctx);
    case ArrayType(_, e) => InternedIsSelf(e, ctx);
    case VectorType(_, e) => InternedIsSelf(e, ctx);
    case StructType(name, fields, _) =>
      var all := Structs(t) + Known(ctx);
      FewerOneBody(all, StructsOf(fields) + Known(ctx));
      InternedAllAreSelf(fields, ctx);
      InternedAllSettles(fields, ctx);
      var c := InternedAll(fields, ctx).1;
      assert {t} + Known(c) == all;
      NamedStructIsSelf(t, c);
      NamedStructSettles(name, fields, c);
      assert Known(c) + {t} == Known(ctx) + Structs(t);
    case FunctionType(ret, params, _) =>
      var all := Structs(t) + Known(ctx);
      FewerOneBody(all, Structs(ret) + Known(ctx));
      InternedIsSelf(ret, ctx);
      InternedSettles(ret, ctx);
      var c := Interned(ret, ctx).1;
      assert StructsOf(params) + Known(c) == all;
      InternedAllAreSelf(params, c);
      assert Known(c) + StructsOf(params) == Known(ctx) + Structs(t);
    case _ =>
  }

  lemma {:induction false} InternedAllAreSelf(ts: seq<IRType>, ctx: Context)
    requires Proper(ctx) && AllLossless(ts) && OneBody(StructsOf(ts) + Known(ctx))
    ensures InternedAll(ts, ctx).0 == ts && Known(InternedAll(ts, ctx).1) == Known(ctx) + StructsOf(ts)
    decreases ts
  {
    hide Proper, Known, OneBody, Interned, Lossless, Structs;
    if ts != [] {
      var all := StructsOf(ts) + Known(ctx);
      FewerOneBody(all, Structs(ts[0]) + Known(ctx));
      InternedIsSelf(ts[0], ctx);
      InternedSettles(ts[0], ctx);
      var c := Interned(ts[0], ctx).1;
      assert StructsOf(ts[1..]) + Known(c) == all;
      InternedAllAreSelf(ts[1..], c);
      assert ts == [ts[0]] + ts[1..];
      assert Known(c) + StructsOf(ts[1..]) == Known(ctx) + StructsOf(ts);
    }
  }

  /** A type is interned as itself exactly if no part of it is lost and no two structs, known ones included, share a
    * name. */
  lemma InternedIsSelfIff(t: IRType, ctx: Context)
    requires Proper(ctx)
    ensures Interned(t, ctx).0 == t <==> Lossless(t) && OneBody(Structs(t) + Known(ctx))
  {
    hide Proper, Known, OneBody, Lossless, Structs, Interned;
    if Lossless(t) && OneBody(Structs(t) + Known(ctx)) {
      InternedIsSelf(t, ctx);
    }
    if Interned(t, ctx).0 == t {
      InternedSettles(t, ctx);
      KnownGrows(ctx, Interned(t, ctx).1);
      ProperOneBody(Interned(t, ctx).1);
      FewerOneBody(Known(Interned(t, ctx).1), Structs(t) + Known(ctx));
    }
  }

  /** So a record reads back as the type written exactly under that condition. */
  lemma TypeComesBackIff(t: IRType, strings: seq<Name>, table: seq<Byte>, rest: seq<Byte>, ctx: Context)
    requires Registered(t, strings) && WellSized(t) && Tables(strings, table) && Proper(ctx)
    ensures var r := ReadType(TypeBytes(t, strings) + rest, table, ctx);
      r.Got? && r.rest == rest && (r.value.0 == t <==> Lossless(t) && OneBody(Structs(t) + Known(ctx)))
  {
    hide ReadType, TypeBytes, Proper, Known, OneBody, Lossless, Structs, Interned, Registered, WellSized, Tables;
    TypeRoundTrip(t, strings, table, rest, ctx);
    InternedIsSelfIff(t, ctx);
  }

  // ---- Contexts that a reader can have ----

  predicate ReadSettles(ctx: Context, r: TypeRead) {
    r.Got? ==> Settled(ctx, r.value.0, r.value.1)
  }

  lemma NewContextIsProper(anonymous: nat)
    ensures Proper(Context(map[], anonymous)) && Known(Context(map[], anonymous)) == {}
  {
  }

  /** Whatever bytes are read, the context stays proper, and every struct read is named, unpacked and known. */
  lemma {:induction false} ReadTypeSettles(s: seq<Byte>, table: seq<Byte>, ctx: Context)
    requires Proper(ctx)
    ensures ReadSettles(ctx, ReadType(s, table, ctx))
    decreases |s|, 0
  {
    hide Proper, Extends, Known, ReadPointer, ReadArray, ReadVector, ReadStruct, ReadFunction, ReadLE, ReadString;
    if s != [] {
      Same(ctx);
      match s[0]
      case 4 => PointerSettles(s[1..], table, ctx);
      case 5 => ArraySettles(s[1..], table, ctx);
      case 6 => StructSettles(s[1..], table, ctx);
      case 7 => FunctionSettles(s[1..], table, ctx);
      case 8 => VectorSettles(s[1..], table, ctx);
      case _ =>
    }
  }

  lemma {:induction false} PointerSettles(s: seq<Byte>, table: seq<Byte>, ctx: Context)
    requires Proper(ctx)
    ensures ReadSettles(ctx, ReadPointer(s, table, ctx))
    decreases |s|, 1
  {
    hide Proper, Extends, Known, ReadType, ReadLE;
    ReadTypeSettles(s, table, ctx);
  }

  lemma {:induction false} ArraySettles(s: seq<Byte>, table: seq<Byte>, ctx: Context)
    requires Proper(ctx)
    ensures ReadSettles(ctx, ReadArray(s, table, ctx))
    decreases |s|, 1
  {
    hide Proper, Extends, Known, ReadType, ReadLE;
    var n := ReadLE(8, s);
    if n.Got? {
      ReadTypeSettles(n.rest, table, ctx);
    }
  }

  lemma {:induction false} VectorSettles(s: seq<Byte>, table: seq<Byte>, ctx: Context)
    requires Proper(ctx)
    ensures ReadSettles(ctx, ReadVector(s, table, ctx))
    decreases |s|, 1
  {
    hide Proper, Extends, Known, ReadType, ReadLE;
    var n := ReadLE(4, s);
    if n.Got? {
      ReadTypeSettles(n.rest, table, ctx);
    }
  }

  lemma {:induction false} StructSettles(s: seq<Byte>, table: seq<Byte>, ctx: Context)
    requires Proper(ctx)
    ensures ReadSettles(ctx, ReadStruct(s, table, ctx))
    decreases |s|, 2
  {
    hide Proper, Extends, Known, ReadTypes, ReadLE, ReadString, StructFor;
    var name := ReadString(table, s);
    if name.Got? {
      var n := ReadLE(4, name.rest);
      if n.Got? {
        TypesSettle(n.value, n.rest, table, ctx);
        var fs := ReadTypes(n.value, n.rest, table, ctx);
        if fs.Got? {
          StructForSettles(name.value, fs.value.0, fs.value.1);
          ExtendsThrough(ctx, fs.value.1, StructFor(name.value, fs.value.0, fs.value.1).1);
        }
      }
    }
  }

  lemma {:induction false} FunctionSettles(s: seq<Byte>, table: seq<Byte>, ctx: Context)
    requires Proper(ctx)
    ensures ReadSettles(ctx, ReadFunction(s, table, ctx))
    decreases |s|, 2
  {
    hide Proper, Extends, Known, ReadType, ReadTypes, ReadLE;
    ReadTypeSettles(s, table, ctx);
    var t := ReadType(s, table, ctx);
    if t.Got? && t.rest != [] {
      var n := ReadLE(4, t.rest[1..]);
      if n.Got? {
        TypesSettle(n.value, n.rest, table, t.value.1);
        var ps := ReadTypes(n.value, n.rest, table, t.value.1);
        if ps.Got? {
          ExtendsThrough(ctx, t.value.1, ps.value.1);
        }
      }
    }
  }

  lemma {:induction false} TypesSettle(n: nat, s: seq<Byte>, table: seq<Byte>, ctx: Context)
    requires Proper(ctx)
    ensures var r := ReadTypes(n, s, table, ctx); r.Got? ==> AllSettled(ctx, r.value.0, r.value.1)
    decreases |s|, 1
  {
    hide Proper, Extends, Known, ReadType, Lossless;
    if n == 0 {
      Same(ctx);
    } else {
      ReadTypeSettles(s, table, ctx);
      var t := ReadType(s, table, ctx);
      if t.Got? {
        TypesSettle(n - 1, t.rest, table, t.value.1);
        var ts := ReadTypes(n - 1, t.rest, table, t.value.1);
        if ts.Got? {
          ExtendsThrough(ctx, t.value.1, ts.value.1);
        }
      }
    }
  }
}
