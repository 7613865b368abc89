/** When a function body comes back from bitcode as it was written. */
module KeptBodies {
  import opened Powers
  import opened LittleEndian
  import opened StringTable
  import opened TypeRecords
  import opened Interning
  import opened FunctionBody
  import opened BodyRoundTrip

  /** Kept exactly: the conditions under which an operand of the p-th instruction, of type t, comes back as it was. */
  predicate KeptOperand(o: Operand, t: IRType, p: nat, e: Surroundings) {
    match o
    case IntConst(w, v) => v < Pow256(8) && v < Pow2(w)
    case FloatConst(w, v) => v < Pow256(8) && v < Pow2(w)
    case NullConst(u) => u == t
    case UndefConst(u) => u == t
    case ZeroConst(u) => u == t
    case FunctionRef(i) => i < e.functions
    case GlobalRef(i) => i < e.globals
    case ResultOf(q) => q < p
    case BlockRef(b) => b < |e.sizes|
    case _ => false
  }

  predicate KeptOperands(os: seq<Operand>, t: IRType, p: nat, e: Surroundings) {
    forall i | 0 <= i < |os| :: KeptOperand(os[i], t, p, e)
  }

  /** Opcodes 96 and 97, the comparisons, keep their predicate. */
  predicate KeptInst(i: Inst, p: nat, e: Surroundings) {
    && i.dialect == 0 && (i.opcode == 96 || i.opcode == 97 || i.predicateByte == 0) && Lossless(i.ty)
    && KeptOperands(i.operands, i.ty, p, e)
  }

  predicate KeptInsts(xs: seq<Inst>, p: nat, e: Surroundings) {
    xs == [] || (KeptInst(xs[0], p, e) && KeptInsts(xs[1..], p + 1, e))
  }

  predicate KeptBlocks(bs: seq<Block>, p: nat, e: Surroundings) {
    bs == [] || (bs[0].name != [] && KeptInsts(bs[0].insts, p, e) && KeptBlocks(bs[1..], p + |bs[0].insts|, e))
  }

  lemma KeptOperandExact(o: Operand, t: IRType, p: nat, e: Surroundings)
    ensures ImageOperand(o, t, p, e) == [o] <==> KeptOperand(o, t, p, e)
    ensures |ImageOperand(o, t, p, e)| <= 1
  {
    match o
    case IntConst(w, v) => ModExact(v, w);
    case FloatConst(w, v) => ModExact(v, w);
    case _ =>
  }

  lemma ModExact(v: nat, w: nat)
    ensures v % Pow256(8) % Pow2(w) == v <==> v < Pow256(8) && v < Pow2(w)
  {
    Below(v, Pow256(8));
    Below(v % Pow256(8), Pow2(w));
  }

  lemma Below(v: nat, m: nat)
    requires m >= 1
    ensures v % m <= v && v % m < m && (v < m ==> v % m == v)
  {
  }

  lemma {:induction false} KeptOperandsExact(os: seq<Operand>, t: IRType, p: nat, e: Surroundings)
    ensures |ImageOperands(os, t, p, e)| <= |os|
    ensures ImageOperands(os, t, p, e) == os <==> KeptOperands(os, t, p, e)
    decreases |os|
  {
    hide ImageOperand, KeptOperand;
    if os != [] {
      KeptOperandExact(os[0], t, p, e);
      KeptOperandsExact(os[1..], t, p, e);
      var head, tail := ImageOperand(os[0], t, p, e), ImageOperands(os[1..], t, p, e);
      assert os == [os[0]] + os[1..];
      assert KeptOperands(os, t, p, e) == (KeptOperand(os[0], t, p, e) && KeptOperands(os[1..], t, p, e)) by {
        assert forall i | 0 <= i < |os[1..]| :: os[1..][i] == os[i + 1];
      }
      if head + tail == os {
        assert |head| == 1 && head == os[..1] && tail == os[1..];
        assert os[..1] == [os[0]];
      }
    }
  }

  /** The structs in the types of the instructions. */
  function InstStructs(xs: seq<Inst>): set<IRType> {
    if xs == [] then {} else Structs(xs[0].ty) + InstStructs(xs[1..])
  }

  function BodyStructs(bs: seq<Block>): set<IRType> {
    if bs == [] then {} else InstStructs(bs[0].insts) + BodyStructs(bs[1..])
  }

  // ---- The context behind an instruction ----

  /** Contexts only grow, and stay proper. */
  predicate Later(ctx: Context, after: Context) {
    Proper(after) && Extends(ctx, after)
  }

  lemma LaterThrough(a: Context, b: Context, c: Context)
    requires Later(a, b) && Later(b, c)
    ensures Later(a, c) && Known(a) <= Known(b) <= Known(c)
  {
    ExtendsThrough(a, b, c);
  }

  lemma AfterOperandLater(o: Operand, ctx: Context)
    requires Proper(ctx)
    ensures Later(ctx, AfterOperand(o, ctx))
  {
    hide Proper, Extends, Interned;
    match o
    case NullConst(t) => InternedSettles(t, ctx);
    case UndefConst(t) => InternedSettles(t, ctx);
    case ZeroConst(t) => InternedSettles(t, ctx);
    case _ => Same(ctx);
  }

  lemma {:induction false} AfterOperandsLater(os: seq<Operand>, ctx: Context)
    requires Proper(ctx)
    ensures Later(ctx, AfterOperands(os, ctx))
    decreases |os|
  {
    hide Proper, Extends, AfterOperand;
    if os == [] {
      Same(ctx);
    } else {
      AfterOperandLater(os[0], ctx);
      AfterOperandsLater(os[1..], AfterOperand(os[0], ctx));
      LaterThrough(ctx, AfterOperand(os[0], ctx), AfterOperands(os, ctx));
    }
  }

  lemma AfterInstLater(i: Inst, ctx: Context)
    requires Proper(ctx)
    ensures Later(ctx, AfterInst(i, ctx)) && Structs(Interned(i.ty, ctx).0) <= Known(AfterInst(i, ctx))
  {
    hide Proper, Extends, Known, Interned, AfterOperands, Structs;
    InternedSettles(i.ty, ctx);
    var c := Interned(i.ty, ctx).1;
    AfterOperandsLater(i.operands, c);
    LaterThrough(ctx, c, AfterInst(i, ctx));
  }

  lemma {:induction false} AfterInstsLater(xs: seq<Inst>, ctx: Context)
    requires Proper(ctx)
    ensures Later(ctx, AfterInsts(xs, ctx))
    decreases |xs|
  {
    hide Proper, Extends, AfterInst;
    if xs == [] {
      Same(ctx);
    } else {
      AfterInstLater(xs[0], ctx);
      AfterInstsLater(xs[1..], AfterInst(xs[0], ctx));
      LaterThrough(ctx, AfterInst(xs[0], ctx), AfterInsts(xs, ctx));
    }
  }

  lemma {:induction false} AfterBlocksLater(bs: seq<Block>, ctx: Context)
    requires Proper(ctx)
    ensures Later(ctx, AfterBlocks(bs, ctx))
    decreases |bs|
  {
    hide Proper, Extends, AfterInsts;
    if bs == [] {
      Same(ctx);
    } else {
      AfterInstsLater(bs[0].insts, ctx);
      AfterBlocksLater(bs[1..], AfterInsts(bs[0].insts, ctx));
      LaterThrough(ctx, AfterInsts(bs[0].insts, ctx), AfterBlocks(bs, ctx));
    }
  }

  // ---- Kept bodies come back ----

  /** A kept operand names no type but the instruction's, which the context knows by then. */
  lemma {:induction false} AfterKeptOperands(os: seq<Operand>, t: IRType, p: nat, e: Surroundings, ctx: Context)
    requires KeptOperands(os, t, p, e) && Proper(ctx) && Lossless(t) && Structs(t) <= Known(ctx)
    ensures Proper(AfterOperands(os, ctx)) && Known(AfterOperands(os, ctx)) == Known(ctx)
    decreases |os|
  {
    hide Proper, Known, Structs, Lossless, KeptOperand, AfterOperand;
    if os != [] {
      AfterKeptOperand(os[0], t, p, e, ctx);
      assert forall i | 0 <= i < |os[1..]| :: os[1..][i] == os[i + 1];
      AfterKeptOperands(os[1..], t, p, e, AfterOperand(os[0], ctx));
    }
  }

  lemma AfterKeptOperand(o: Operand, t: IRType, p: nat, e: Surroundings, ctx: Context)
    requires KeptOperand(o, t, p, e) && Proper(ctx) && Lossless(t) && Structs(t) <= Known(ctx)
    ensures Proper(AfterOperand(o, ctx)) && Known(AfterOperand(o, ctx)) == Known(ctx)
  {
    hide Proper, Known, Structs, Lossless, OneBody, Interned;
    AfterOperandLater(o, ctx);
    ProperOneBody(ctx);
    FewerOneBody(Known(ctx), Structs(t) + Known(ctx));
    InternedIsSelf(t, ctx);
    assert Known(ctx) + Structs(t) == Known(ctx);
  }

  lemma KeptInstIsSelf(i: Inst, p: nat, e: Surroundings, ctx: Context)
    requires KeptInst(i, p, e) && Proper(ctx) && OneBody(Structs(i.ty) + Known(ctx))
    ensures ImageInst(i, p, e, ctx) == i
    ensures Proper(AfterInst(i, ctx)) && Known(AfterInst(i, ctx)) == Known(ctx) + Structs(i.ty)
  {
    hide Proper, Known, Structs, Lossless, OneBody, Interned, KeptOperands, ImageOperands, AfterOperands;
    InternedIsSelf(i.ty, ctx);
    InternedSettles(i.ty, ctx);
    KeptOperandsExact(i.operands, i.ty, p, e);
    AfterKeptOperands(i.operands, i.ty, p, e, Interned(i.ty, ctx).1);
  }

  lemma {:induction false} KeptInstsAreSelf(xs: seq<Inst>, p: nat, e: Surroundings, ctx: Context)
    requires KeptInsts(xs, p, e) && Proper(ctx) && OneBody(InstStructs(xs) + Known(ctx))
    ensures ImageInsts(xs, p, e, ctx) == xs
    ensures Proper(AfterInsts(xs, ctx)) && Known(AfterInsts(xs, ctx)) == Known(ctx) + InstStructs(xs)
    decreases |xs|
  {
    hide Proper, Known, Structs, OneBody, KeptInst, ImageInst, AfterInst;
    if xs != [] {
      var all := InstStructs(xs) + Known(ctx);
      FewerOneBody(all, Structs(xs[0].ty) + Known(ctx));
      KeptInstIsSelf(xs[0], p, e, ctx);
      var c := AfterInst(xs[0], ctx);
      assert InstStructs(xs[1..]) + Known(c) == all;
      KeptInstsAreSelf(xs[1..], p + 1, e, c);
      assert xs == [xs[0]] + xs[1..];
      assert Known(c) + InstStructs(xs[1..]) == Known(ctx) + InstStructs(xs);
    }
  }

  lemma {:induction false} KeptBlocksAreSelf(bs: seq<Block>, b: nat, p: nat, e: Surroundings, ctx: Context)
    requires KeptBlocks(bs, p, e) && Proper(ctx) && OneBody(BodyStructs(bs) + Known(ctx))
    ensures ImageBlocks(bs, b, p, e, ctx) == bs
    ensures Proper(AfterBlocks(bs, ctx)) && Known(AfterBlocks(bs, ctx)) == Known(ctx) + BodyStructs(bs)
    decreases |bs|
  {
    hide Proper, Known, InstStructs, OneBody, KeptInsts, ImageInsts, AfterInsts, BlockName;
    if bs != [] {
      var x := bs[0];
      var all := BodyStructs(bs) + Known(ctx);
      FewerOneBody(all, InstStructs(x.insts) + Known(ctx));
      BlockNameKept(x.name, b);
      KeptInstsAreSelf(x.insts, p, e, ctx);
      var c := AfterInsts(x.insts, ctx);
      assert BodyStructs(bs[1..]) + Known(c) == all;
      KeptBlocksAreSelf(bs[1..], b + 1, p + |x.insts|, e, c);
      assert bs == [x] + bs[1..];
      assert Known(c) + BodyStructs(bs[1..]) == Known(ctx) + BodyStructs(bs);
    }
  }

  // ---- What comes back is kept ----

  lemma SelfInstIsKept(i: Inst, p: nat, e: Surroundings, ctx: Context)
    requires Proper(ctx) && ImageInst(i, p, e, ctx) == i
    ensures KeptInst(i, p, e) && Later(ctx, AfterInst(i, ctx)) && Structs(i.ty) <= Known(AfterInst(i, ctx))
  {
    hide Proper, Known, Structs, Lossless, Interned, KeptOperands, ImageOperands, AfterInst, Extends;
    InternedSettles(i.ty, ctx);
    KeptOperandsExact(i.operands, i.ty, p, e);
    AfterInstLater(i, ctx);
  }

  lemma {:induction false} SelfInstsAreKept(xs: seq<Inst>, p: nat, e: Surroundings, ctx: Context)
    requires Proper(ctx) && ImageInsts(xs, p, e, ctx) == xs
    ensures KeptInsts(xs, p, e) && Later(ctx, AfterInsts(xs, ctx)) && InstStructs(xs) <= Known(AfterInsts(xs, ctx))
    decreases |xs|
  {
    hide Proper, Known, Structs, Extends, KeptInst, ImageInst, AfterInst;
    if xs == [] {
      Same(ctx);
    } else {
      var c := AfterInst(xs[0], ctx);
      var r := ImageInsts(xs, p, e, ctx);
      assert r[0] == ImageInst(xs[0], p, e, ctx) && r[1..] == ImageInsts(xs[1..], p + 1, e, c);
      SelfInstIsKept(xs[0], p, e, ctx);
      SelfInstsAreKept(xs[1..], p + 1, e, c);
      LaterThrough(ctx, c, AfterInsts(xs, ctx));
    }
  }

  lemma {:induction false} SelfBlocksAreKept(bs: seq<Block>, b: nat, p: nat, e: Surroundings, ctx: Context)
    requires Proper(ctx) && ImageBlocks(bs, b, p, e, ctx) == bs
    ensures KeptBlocks(bs, p, e) && Later(ctx, AfterBlocks(bs, ctx)) && BodyStructs(bs) <= Known(AfterBlocks(bs, ctx))
    decreases |bs|
  {
    hide Proper, Known, InstStructs, Extends, KeptInsts, ImageInsts, AfterInsts, BlockName;
    if bs == [] {
      Same(ctx);
    } else {
      var x := bs[0];
      var c := AfterInsts(x.insts, ctx);
      var r := ImageBlocks(bs, b, p, e, ctx);
      assert r[0] == Block(BlockName(x.name, b), ImageInsts(x.insts, p, e, ctx));
      assert r[1..] == ImageBlocks(bs[1..], b + 1, p + |x.insts|, e, c);
      BlockNameKept(x.name, b);
      SelfInstsAreKept(x.insts, p, e, ctx);
      SelfBlocksAreKept(bs[1..], b + 1, p + |x.insts|, e, c);
      LaterThrough(ctx, c, AfterBlocks(bs, ctx));
    }
  }

  /**
   A body read by two passes comes back as it was if and only if all its parts are kept and no two structs in
   its types, nor one of them and one that the reader knew before, share a name.
   */
  lemma BodyIsSelfIff(bs: seq<Block>, e: Surroundings, ctx: Context)
    requires Proper(ctx)
    ensures ImageBlocks(bs, 0, 0, e, AfterBlocks(bs, ctx)) == bs <==>
            KeptBlocks(bs, 0, e) && OneBody(BodyStructs(bs) + Known(ctx))
  {
    hide Proper, Known, OneBody, BodyStructs, KeptBlocks, ImageBlocks, AfterBlocks, Extends;
    var c := AfterBlocks(bs, ctx);
    AfterBlocksLater(bs, ctx);
    if KeptBlocks(bs, 0, e) && OneBody(BodyStructs(bs) + Known(ctx)) {
      KeptBlocksAreSelf(bs, 0, 0, e, ctx);
      assert BodyStructs(bs) + Known(c) == BodyStructs(bs) + Known(ctx);
      KeptBlocksAreSelf(bs, 0, 0, e, c);
    }
    if ImageBlocks(bs, 0, 0, e, c) == bs {
      SelfBlocksAreKept(bs, 0, 0, e, c);
      var d := AfterBlocks(bs, c);
      LaterThrough(ctx, c, d);
      ProperOneBody(d);
      FewerOneBody(Known(d), BodyStructs(bs) + Known(ctx));
    }
  }

  lemma BlockNameKept(name: Name, b: nat)
    ensures BlockName(name, b) == name <==> name != []
  {
  }
}
