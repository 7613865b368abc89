/** Reading a written function body: exactly what comes back. */
module BodyRoundTrip {
  import opened Powers
  import opened Bytes
  import opened LittleEndian
  import opened StringTable
  import opened TypeRecords
  import opened FunctionBody

  /** What an operand of the p-th instruction comes back as; rt is the instruction's type as read back. */
  function ImageOperand(o: Operand, rt: IRType, p: nat, e: Surroundings): seq<Operand> {
    match o
    case IntConst(w, v) => [IntConst(w, v % Pow256(8) % Pow2(w))]
    case FloatConst(w, v) => [FloatConst(w, v % Pow256(8) % Pow2(w))]
    case NullOperand => [NullConst(rt)]
    case NullConst(_) => [NullConst(rt)]
    case UndefConst(_) => [UndefConst(rt)]
    case ZeroConst(_) => [ZeroConst(rt)]
    case FunctionRef(i) => if i < e.functions then [o] else []
    case GlobalRef(i) => if i < e.globals then [o] else []
    case ResultOf(q) => if q < p then [o] else []
    case BlockRef(b) => if b < |e.sizes| then [o] else []
    case _ => []
  }

  function ImageOperands(os: seq<Operand>, rt: IRType, p: nat, e: Surroundings): seq<Operand> {
    if os == [] then [] else ImageOperand(os[0], rt, p, e) + ImageOperands(os[1..], rt, p, e)
  }

  /** What the types of operands leave in the context. */
  function AfterOperand(o: Operand, ctx: Context): Context {
    match o
    case NullConst(t) => Interned(t, ctx).1
    case UndefConst(t) => Interned(t, ctx).1
    case ZeroConst(t) => Interned(t, ctx).1
    case _ => ctx
  }

  function AfterOperands(os: seq<Operand>, ctx: Context): Context {
    if os == [] then ctx else AfterOperands(os[1..], AfterOperand(os[0], ctx))
  }

  /** What an instruction comes back as, and the context after it. */
  function ImageInst(i: Inst, p: nat, e: Surroundings, ctx: Context): Inst {
    var t := Interned(i.ty, ctx).0;
    var predicateByte := if IsComparison(i.opcode) then i.predicateByte else 0;
    Inst(i.opcode, 0, predicateByte, t, i.name, ImageOperands(i.operands, t, p, e))
  }

  function AfterInst(i: Inst, ctx: Context): Context {
    AfterOperands(i.operands, Interned(i.ty, ctx).1)
  }

  function ImageInsts(xs: seq<Inst>, p: nat, e: Surroundings, ctx: Context): (r: seq<Inst>)
    ensures |r| == |xs|
  {
    if xs == [] then [] else [ImageInst(xs[0], p, e, ctx)] + ImageInsts(xs[1..], p + 1, e, AfterInst(xs[0], ctx))
  }

  function AfterInsts(xs: seq<Inst>, ctx: Context): Context {
    if xs == [] then ctx else AfterInsts(xs[1..], AfterInst(xs[0], ctx))
  }

  function ImageBlocks(bs: seq<Block>, b: nat, p: nat, e: Surroundings, ctx: Context): seq<Block> {
    if bs == [] then []
    else
      [Block(BlockName(bs[0].name, b), ImageInsts(bs[0].insts, p, e, ctx))]
      + ImageBlocks(bs[1..], b + 1, p + |bs[0].insts|, e, AfterInsts(bs[0].insts, ctx))
  }

  function AfterBlocks(bs: seq<Block>, ctx: Context): Context {
    if bs == [] then ctx else AfterBlocks(bs[1..], AfterInsts(bs[0].insts, ctx))
  }

  /** Block counts and sizes fit 32 bits. */
  predicate SmallSizes(sizes: seq<nat>) {
    |sizes| < Pow256(4) && forall b | 0 <= b < |sizes| :: sizes[b] < Pow256(4)
  }

  lemma {:induction false} OperandRoundTrip(o: Operand, strings: seq<Name>, e: Surroundings, rt: IRType, p: nat,
                                            rest: seq<Byte>, ctx: Context)
    requires OperandFits(o) && OperandNamed(o, strings) && Tables(strings, e.table) && SmallSizes(e.sizes)
             && p <= Sum(e.sizes)
    ensures ParseOperand([KindOf(o)] + PayloadBytes(o, e.sizes, strings) + rest, e, rt, p, ctx)
      == Got((ImageOperand(o, rt, p, e), AfterOperand(o, ctx)), rest)
  {
    hide ReadType, ReadLE, LE, Tables, TypeBytes, Flat, Locate, Sum, Interned;
    var s := [KindOf(o)] + PayloadBytes(o, e.sizes, strings) + rest;
    assert s[1..] == PayloadBytes(o, e.sizes, strings) + rest;
    match o
    case IntConst(w, v) => NumbersRoundTrip(4, w, 8, v % Pow256(8), rest);
    case FloatConst(w, v) => NumbersRoundTrip(4, w, 8, v % Pow256(8), rest);
    case NullOperand => TypeRoundTrip(VoidType, strings, e.table, rest, ctx); VoidInterned(ctx);
    case NullConst(t) => TypeRoundTrip(t, strings, e.table, rest, ctx);
    case UndefConst(t) => TypeRoundTrip(t, strings, e.table, rest, ctx);
    case ZeroConst(t) => TypeRoundTrip(t, strings, e.table, rest, ctx);
    case StructConst => assert s[1..] == rest;
    case ArrayConst => assert s[1..] == rest;
    case FunctionRef(i) => ReadWritten(4, i, rest);
    case GlobalRef(i) => ReadWritten(4, i, rest);
    case ResultOf(q) =>
      FlatLocate(e.sizes, q);
      NumbersRoundTrip(4, Locate(e.sizes, q).0, 4, Locate(e.sizes, q).1, rest);
    case ArgumentRef(_) => ReadWritten(4, 0, rest);
    case BlockRef(b) => ReadWritten(4, if b < |e.sizes| then b else |e.sizes|, rest);
  }

  lemma VoidInterned(ctx: Context)
    ensures Interned(VoidType, ctx) == (VoidType, ctx)
  {
  }

  lemma NumbersRoundTrip(n: nat, v: nat, m: nat, w: nat, rest: seq<Byte>)
    requires v < Pow256(n) && w < Pow256(m)
    ensures ReadLE(n, LE(n, v) + LE(m, w) + rest) == Got(v, LE(m, w) + rest)
    ensures ReadLE(m, LE(m, w) + rest) == Got(w, rest)
  {
    assert LE(n, v) + LE(m, w) + rest == LE(n, v) + (LE(m, w) + rest);
    ReadWritten(n, v, LE(m, w) + rest);
    ReadWritten(m, w, rest);
  }

  lemma {:induction false} OperandsRoundTrip(os: seq<Operand>, strings: seq<Name>, e: Surroundings, rt: IRType, p: nat,
                                             rest: seq<Byte>, ctx: Context)
    requires OperandsFit(os) && OperandsNamed(os, strings) && Tables(strings, e.table) && SmallSizes(e.sizes)
             && p <= Sum(e.sizes)
    ensures ParseOperands(|os|, OperandsBytes(os, e.sizes, strings) + rest, e, rt, p, ctx)
      == Got((ImageOperands(os, rt, p, e), AfterOperands(os, ctx)), rest)
    decreases |os|
  {
    hide ParseOperand, PayloadBytes, KindOf, ImageOperand, AfterOperand, Tables, OperandFits, OperandNamed;
    if os == [] {
      assert OperandsBytes(os, e.sizes, strings) + rest == rest;
    } else {
      var rest1 := OperandsBytes(os[1..], e.sizes, strings) + rest;
      assert OperandsBytes(os, e.sizes, strings) + rest
             == [KindOf(os[0])] + PayloadBytes(os[0], e.sizes, strings) + rest1;
      OperandRoundTrip(os[0], strings, e, rt, p, rest1, ctx);
      OperandsRoundTrip(os[1..], strings, e, rt, p, rest, AfterOperand(os[0], ctx));
    }
  }

  /** The bytes of an instruction, taken apart from the left. */
  function InstBytesRight(i: Inst, sizes: seq<nat>, strings: seq<Name>, rest: seq<Byte>): seq<Byte> {
    LE(2, i.opcode) + ([i.dialect] + ([if IsComparison(i.opcode) then i.predicateByte else 0]
      + (TypeBytes(i.ty, strings) + (NameBytes(strings, i.name)
        + (LE(4, |i.operands|) + (OperandsBytes(i.operands, sizes, strings) + rest))))))
  }

  lemma InstBytesFrame(i: Inst, sizes: seq<nat>, strings: seq<Name>, rest: seq<Byte>)
    ensures InstBytes(i, sizes, strings) + rest == InstBytesRight(i, sizes, strings, rest)
  {
    hide LE, TypeBytes, NameBytes, OperandsBytes;
  }

  lemma {:induction false} InstRoundTrip(i: Inst, strings: seq<Name>, e: Surroundings, p: nat, rest: seq<Byte>,
                                         ctx: Context)
    requires InstFits(i) && InstNamed(i, strings) && Tables(strings, e.table) && SmallSizes(e.sizes)
             && p <= Sum(e.sizes)
    ensures ParseInst(InstBytes(i, e.sizes, strings) + rest, e, p, ctx)
            == Got((ImageInst(i, p, e, ctx), AfterInst(i, ctx)), rest)
  {
    hide ReadType, ReadLE, LE, ReadString, TypeBytes, OperandsBytes, ParseOperands, RefOf, RefBytes, Interned;
    hide ImageOperands, AfterOperands, OperandsFit, OperandsNamed, TableBytes;
    InstBytesFrame(i, e.sizes, strings, rest);
    var r6 := OperandsBytes(i.operands, e.sizes, strings) + rest;
    var r5 := LE(4, |i.operands|) + r6;
    var r4 := NameBytes(strings, i.name) + r5;
    var r3 := TypeBytes(i.ty, strings) + r4;
    var r2 := [if IsComparison(i.opcode) then i.predicateByte else 0] + r3;
    var r1 := [i.dialect] + r2;
    ReadWritten(2, i.opcode, r1);
    assert r1[1..] == r2 && r2[1..] == r3;
    TypeRoundTrip(i.ty, strings, e.table, r4, ctx);
    ReadBack(strings, i.name, r5);
    ReadWritten(4, |i.operands|, r6);
    OperandsRoundTrip(i.operands, strings, e, Interned(i.ty, ctx).0, p, rest, Interned(i.ty, ctx).1);
  }

  lemma {:induction false} InstsRoundTrip(xs: seq<Inst>, strings: seq<Name>, e: Surroundings, p: nat, rest: seq<Byte>,
                                          ctx: Context)
    requires InstsFit(xs) && InstsNamed(xs, strings) && Tables(strings, e.table) && SmallSizes(e.sizes)
             && p + |xs| <= Sum(e.sizes)
    ensures ParseInsts(|xs|, InstsBytes(xs, e.sizes, strings) + rest, e, p, ctx)
            == Got((ImageInsts(xs, p, e, ctx), AfterInsts(xs, ctx)), rest)
    decreases |xs|
  {
    hide ParseInst, InstBytes, ImageInst, AfterInst, InstFits, InstNamed, Tables;
    if xs == [] {
      assert InstsBytes(xs, e.sizes, strings) + rest == rest;
    } else {
      var rest1 := InstsBytes(xs[1..], e.sizes, strings) + rest;
      assert InstsBytes(xs, e.sizes, strings) + rest == InstBytes(xs[0], e.sizes, strings) + rest1;
      InstRoundTrip(xs[0], strings, e, p, rest1, ctx);
      InstsRoundTrip(xs[1..], strings, e, p + 1, rest, AfterInst(xs[0], ctx));
    }
  }

  /** Blocks with these sizes end at the end of the layout. */
  predicate EndsLayout(bs: seq<Block>, p: nat, e: Surroundings) {
    p + Sum(Sizes(bs)) <= Sum(e.sizes)
  }

  lemma SizesStep(bs: seq<Block>)
    requires bs != []
    ensures Sizes(bs) == [|bs[0].insts|] + Sizes(bs[1..]) && Sum(Sizes(bs)) == |bs[0].insts| + Sum(Sizes(bs[1..]))
  {
    assert Sizes(bs)[1..] == Sizes(bs[1..]);
  }

  lemma {:induction false} BlocksRoundTrip(bs: seq<Block>, strings: seq<Name>, e: Surroundings, b: nat, p: nat,
                                           rest: seq<Byte>, ctx: Context)
    requires BlocksFit(bs) && BlocksNamed(bs, strings) && Tables(strings, e.table) && SmallSizes(e.sizes)
             && EndsLayout(bs, p, e)
    ensures ParseBlocks(|bs|, BlocksBytes(bs, e.sizes, strings) + rest, e, b, p, ctx)
            == Got((ImageBlocks(bs, b, p, e, ctx), AfterBlocks(bs, ctx)), rest)
    decreases |bs|
  {
    hide ParseInsts, InstsBytes, ImageInsts, AfterInsts, InstsFit, InstsNamed, LE, ReadLE, ReadString, BlockName, RefOf;
    hide RefBytes, Sizes, TableBytes, Sum;
    if bs == [] {
      assert BlocksBytes(bs, e.sizes, strings) + rest == rest;
    } else {
      SizesStep(bs);
      var k := |bs[0].insts|;
      var r3 := BlocksBytes(bs[1..], e.sizes, strings) + rest;
      var r2 := InstsBytes(bs[0].insts, e.sizes, strings) + r3;
      var r1 := LE(4, k) + r2;
      assert BlocksBytes(bs, e.sizes, strings) + rest == NameBytes(strings, bs[0].name) + r1;
      ReadBack(strings, bs[0].name, r1);
      ReadWritten(4, k, r2);
      InstsRoundTrip(bs[0].insts, strings, e, p, r3, ctx);
      BlocksRoundTrip(bs[1..], strings, e, b + 1, p + k, rest, AfterInsts(bs[0].insts, ctx));
    }
  }
}
