/** The reader's two passes over a function body agree on every input, and together they give the body back. */
module TwoPasses {
  import opened Bytes
  import opened LittleEndian
  import opened StringTable
  import opened TypeRecords
  import opened FunctionBody
  import opened BodyRoundTrip

  /** Both readers fail, or both succeed and stop at the same byte. */
  predicate SameEnd<A, B>(r1: Read<A>, r2: Read<B>) {
    r1.Got? == r2.Got? && (r1.Got? && r2.Got? ==> r1.rest == r2.rest)
  }

  /** Where a type record ends does not depend on the types read before it. */
  lemma {:induction false} TypeEnd(s: seq<Byte>, table: seq<Byte>, c1: Context, c2: Context)
    ensures SameEnd(ReadType(s, table, c1), ReadType(s, table, c2))
    decreases |s|, 0
  {
    hide ReadLE, ReadString, ReadArray, ReadVector, ReadPointer, ReadStruct, ReadFunction;
    if s != [] {
      var s1 := s[1..];
      if s[0] == 4 { PointerEnd(s1, table, c1, c2); }
      if s[0] == 5 { ArrayEnd(s1, table, c1, c2); }
      if s[0] == 6 { StructEnd(s1, table, c1, c2); }
      if s[0] == 7 { FunctionEnd(s1, table, c1, c2); }
      if s[0] == 8 { VectorEnd(s1, table, c1, c2); }
    }
  }

  lemma {:induction false} PointerEnd(s: seq<Byte>, table: seq<Byte>, c1: Context, c2: Context)
    ensures SameEnd(ReadPointer(s, table, c1), ReadPointer(s, table, c2))
    decreases |s|, 1
  {
    hide ReadType, ReadLE;
    TypeEnd(s, table, c1, c2);
  }

  lemma {:induction false} ArrayEnd(s: seq<Byte>, table: seq<Byte>, c1: Context, c2: Context)
    ensures SameEnd(ReadArray(s, table, c1), ReadArray(s, table, c2))
    decreases |s|, 1
  {
    hide ReadType, ReadLE;
    var n := ReadLE(8, s);
    if n.Got? { TypeEnd(n.rest, table, c1, c2); }
  }

  lemma {:induction false} VectorEnd(s: seq<Byte>, table: seq<Byte>, c1: Context, c2: Context)
    ensures SameEnd(ReadVector(s, table, c1), ReadVector(s, table, c2))
    decreases |s|, 1
  {
    hide ReadType, ReadLE;
    var n := ReadLE(4, s);
    if n.Got? { TypeEnd(n.rest, table, c1, c2); }
  }

  lemma {:induction false} StructEnd(s: seq<Byte>, table: seq<Byte>, c1: Context, c2: Context)
    ensures SameEnd(ReadStruct(s, table, c1), ReadStruct(s, table, c2))
    decreases |s|, 2
  {
    hide ReadTypes, ReadLE, ReadString, ReadU8, StructFor;
    var name := ReadString(table, s);
    if name.Got? {
      var n := ReadLE(4, name.rest);
      if n.Got? { TypesEnd(n.value, n.rest, table, c1, c2); }
    }
  }

  lemma {:induction false} FunctionEnd(s: seq<Byte>, table: seq<Byte>, c1: Context, c2: Context)
    ensures SameEnd(ReadFunction(s, table, c1), ReadFunction(s, table, c2))
    decreases |s|, 2
  {
    hide ReadType, ReadTypes, ReadLE, ReadU8;
    TypeEnd(s, table, c1, c2);
    var t1, t2 := ReadType(s, table, c1), ReadType(s, table, c2);
    if t1.Got? {
      var v := ReadU8(t1.rest);
      if v.Got? {
        var n := ReadLE(4, v.rest);
        if n.Got? { TypesEnd(n.value, n.rest, table, t1.value.1, t2.value.1); }
      }
    }
  }

  lemma {:induction false} TypesEnd(n: nat, s: seq<Byte>, table: seq<Byte>, c1: Context, c2: Context)
    ensures SameEnd(ReadTypes(n, s, table, c1), ReadTypes(n, s, table, c2))
    decreases |s|, 1
  {
    hide ReadType;
    if n > 0 {
      TypeEnd(s, table, c1, c2);
      var t1, t2 := ReadType(s, table, c1), ReadType(s, table, c2);
      if t1.Got? { TypesEnd(n - 1, t1.rest, table, t1.value.1, t2.value.1); }
    }
  }

  lemma OperandEnd(s: seq<Byte>, e: Surroundings, resTy: IRType, p: nat, c1: Context, c2: Context)
    ensures SameEnd(SkipOperand(s, e.table, c1), ParseOperand(s, e, resTy, p, c2))
  {
    hide ReadLE, ReadType;
    if s != [] {
      TypeEnd(s[1..], e.table, c1, c2);
    }
  }

  lemma {:induction false} OperandsEnd(n: nat, s: seq<Byte>, e: Surroundings, resTy: IRType, p: nat, c1: Context,
                                       c2: Context)
    ensures SameEnd(SkipOperands(n, s, e.table, c1), ParseOperands(n, s, e, resTy, p, c2))
    decreases n
  {
    hide SkipOperand, ParseOperand;
    if n > 0 {
      OperandEnd(s, e, resTy, p, c1, c2);
      var o1, o2 := SkipOperand(s, e.table, c1), ParseOperand(s, e, resTy, p, c2);
      if o1.Got? { OperandsEnd(n - 1, o1.rest, e, resTy, p, o1.value, o2.value.1); }
    }
  }

  lemma {:induction false} InstEnd(s: seq<Byte>, e: Surroundings, p: nat, c1: Context, c2: Context)
    ensures SameEnd(SkipInst(s, e.table, c1), ParseInst(s, e, p, c2))
  {
    hide ReadLE, ReadU8, ReadType, ReadString, SkipOperands, ParseOperands;
    var op := ReadLE(2, s);
    if op.Got? {
      var d := ReadU8(op.rest);
      if d.Got? {
        var pred := ReadU8(d.rest);
        if pred.Got? {
          TypeEnd(pred.rest, e.table, c1, c2);
          InstTailEnd(pred.rest, e, p, c1, c2);
        }
      }
    }
  }

  /** The part of an instruction from its type on. */
  lemma {:induction false} InstTailEnd(s: seq<Byte>, e: Surroundings, p: nat, c1: Context, c2: Context)
    ensures var t1, t2 := ReadType(s, e.table, c1), ReadType(s, e.table, c2);
      t1.Got? && t2.Got? && t1.rest == t2.rest ==>
        var name := ReadString(e.table, t1.rest);
        name.Got? ==>
          var n := ReadLE(4, name.rest);
          n.Got? ==>
            SameEnd(SkipOperands(n.value, n.rest, e.table, t1.value.1),
                    ParseOperands(n.value, n.rest, e, t2.value.0, p, t2.value.1))
  {
    hide ReadLE, ReadType, ReadString, SkipOperands, ParseOperands;
    var t1, t2 := ReadType(s, e.table, c1), ReadType(s, e.table, c2);
    if t1.Got? && t2.Got? {
      var name := ReadString(e.table, t1.rest);
      if name.Got? {
        var n := ReadLE(4, name.rest);
        if n.Got? { OperandsEnd(n.value, n.rest, e, t2.value.0, p, t1.value.1, t2.value.1); }
      }
    }
  }

  lemma {:induction false} InstsEnd(n: nat, s: seq<Byte>, e: Surroundings, p: nat, c1: Context, c2: Context)
    ensures SameEnd(SkipInsts(n, s, e.table, c1), ParseInsts(n, s, e, p, c2))
    decreases n
  {
    hide SkipInst, ParseInst;
    if n > 0 {
      InstEnd(s, e, p, c1, c2);
      var i1, i2 := SkipInst(s, e.table, c1), ParseInst(s, e, p, c2);
      if i1.Got? { InstsEnd(n - 1, i1.rest, e, p + 1, i1.value, i2.value.1); }
    }
  }

  /**
   On every input, whatever it holds, the skip pass and the parse pass fail together or stop at the same byte,
   and the sizes that the skip pass reports are those of the blocks that the parse pass builds.
   */
  lemma {:induction false} PassesAgree(n: nat, s: seq<Byte>, e: Surroundings, b: nat, p: nat, c1: Context, c2: Context)
    ensures var skip, parse := SkipBlocks(n, s, e.table, c1), ParseBlocks(n, s, e, b, p, c2);
      && SameEnd(skip, parse)
      && (skip.Got? && parse.Got? ==> skip.value.0 == Sizes(parse.value.0))
    decreases n
  {
    hide SkipInsts, ParseInsts, ReadLE, ReadString, BlockName;
    if n > 0 {
      var name := ReadString(e.table, s);
      if name.Got? {
        var k := ReadLE(4, name.rest);
        if k.Got? {
          InstsEnd(k.value, k.rest, e, p, c1, c2);
          var i1, i2 := SkipInsts(k.value, k.rest, e.table, c1), ParseInsts(k.value, k.rest, e, p, c2);
          if i1.Got? {
            PassesAgree(n - 1, i1.rest, e, b + 1, p + k.value, i1.value, i2.value.1);
            var parse := ParseBlocks(n - 1, i1.rest, e, b + 1, p + k.value, i2.value.1);
            if parse.Got? {
              SizesCons(Block(BlockName(name.value, b), i2.value.0), parse.value.0);
            }
          }
        }
      }
    }
  }

  lemma SizesCons(b: Block, bs: seq<Block>)
    ensures Sizes([b] + bs) == [|b.insts|] + Sizes(bs)
  {
  }

  lemma {:induction false} ImageSizes(bs: seq<Block>, b: nat, p: nat, e: Surroundings, ctx: Context)
    ensures Sizes(ImageBlocks(bs, b, p, e, ctx)) == Sizes(bs)
    decreases |bs|
  {
    hide ImageInsts, AfterInsts;
    if bs != [] {
      var c := AfterInsts(bs[0].insts, ctx);
      ImageSizes(bs[1..], b + 1, p + |bs[0].insts|, e, c);
      SizesStep(bs);
      SizesCons(Block(BlockName(bs[0].name, b), ImageInsts(bs[0].insts, p, e, ctx)),
                ImageBlocks(bs[1..], b + 1, p + |bs[0].insts|, e, c));
    }
  }

  /** The skip pass leaves the type context in agreement with the types it passed. */
  lemma {:induction false} SkipKeepsContext(n: nat, s: seq<Byte>, e: Surroundings, b: nat, p: nat, c: Context)
    ensures var skip, parse := SkipBlocks(n, s, e.table, c), ParseBlocks(n, s, e, b, p, c);
      skip.Got? && parse.Got? ==> skip.value.1 == parse.value.1
    decreases n
  {
    hide ReadLE, ReadString, BlockName, SkipInsts, ParseInsts;
    if n > 0 {
      var name := ReadString(e.table, s);
      if name.Got? {
        var k := ReadLE(4, name.rest);
        if k.Got? {
          InstsEnd(k.value, k.rest, e, p, c, c);
          InstsContext(k.value, k.rest, e, p, c);
          var i1, i2 := SkipInsts(k.value, k.rest, e.table, c), ParseInsts(k.value, k.rest, e, p, c);
          if i1.Got? { SkipKeepsContext(n - 1, i1.rest, e, b + 1, p + k.value, i1.value); }
        }
      }
    }
  }

  lemma {:induction false} InstsContext(n: nat, s: seq<Byte>, e: Surroundings, p: nat, c: Context)
    ensures var skip, parse := SkipInsts(n, s, e.table, c), ParseInsts(n, s, e, p, c);
      skip.Got? && parse.Got? ==> skip.value == parse.value.1
    decreases n
  {
    hide SkipInst, ParseInst;
    if n > 0 {
      InstEnd(s, e, p, c, c);
      InstContext(s, e, p, c);
      var i1 := SkipInst(s, e.table, c);
      if i1.Got? { InstsContext(n - 1, i1.rest, e, p + 1, i1.value); }
    }
  }

  lemma {:induction false} InstContext(s: seq<Byte>, e: Surroundings, p: nat, c: Context)
    ensures var skip, parse := SkipInst(s, e.table, c), ParseInst(s, e, p, c);
      skip.Got? && parse.Got? ==> skip.value == parse.value.1
  {
    hide ReadLE, ReadU8, ReadType, ReadString, SkipOperands, ParseOperands;
    var skip, parse := SkipInst(s, e.table, c), ParseInst(s, e, p, c);
    if skip.Got? && parse.Got? {
      var op := ReadLE(2, s);
      var d := ReadU8(op.rest);
      var pred := ReadU8(d.rest);
      var t := ReadType(pred.rest, e.table, c);
      var name := ReadString(e.table, t.rest);
      var n := ReadLE(4, name.rest);
      OperandsContext(n.value, n.rest, e, t.value.0, p, t.value.1);
    }
  }

  lemma {:induction false} OperandsContext(n: nat, s: seq<Byte>, e: Surroundings, resTy: IRType, p: nat, c: Context)
    ensures var skip, parse := SkipOperands(n, s, e.table, c), ParseOperands(n, s, e, resTy, p, c);
      skip.Got? && parse.Got? ==> skip.value == parse.value.1
    decreases n
  {
    hide SkipOperand, ParseOperand;
    if n > 0 {
      OperandEnd(s, e, resTy, p, c, c);
      OperandContext(s, e, resTy, p, c);
      var o := SkipOperand(s, e.table, c);
      if o.Got? { OperandsContext(n - 1, o.rest, e, resTy, p, o.value); }
    }
  }

  lemma OperandContext(s: seq<Byte>, e: Surroundings, resTy: IRType, p: nat, c: Context)
    ensures var skip, parse := SkipOperand(s, e.table, c), ParseOperand(s, e, resTy, p, c);
      skip.Got? && parse.Got? ==> skip.value == parse.value.1
  {
    hide ReadLE, ReadType;
  }

  /** A body within the limits of the format, and the string table written with it. */
  predicate Readable(bs: seq<Block>, strings: seq<Name>, table: seq<Byte>) {
    BlocksFit(bs) && BlocksNamed(bs, strings) && SmallSizes(Sizes(bs)) && Tables(strings, table)
  }

  /**
   Reading a written body: the two passes consume exactly its bytes, and what they build is the image of the
   body, in which every kept operand refers to the instruction or block that it referred to before. Types are
   interned in the context that the first pass leaves.
   */
  lemma BodyComesBack(bs: seq<Block>, strings: seq<Name>, table: seq<Byte>, rest: seq<Byte>, functions: nat,
                      globals: nat, ctx: Context)
    requires Readable(bs, strings, table)
    ensures var c := AfterBlocks(bs, ctx);
      ReadBody(|bs|, BlocksBytes(bs, Sizes(bs), strings) + rest, table, functions, globals, ctx)
      == Got((ImageBlocks(bs, 0, 0, Surroundings(table, Sizes(bs), functions, globals), c), AfterBlocks(bs, c)), rest)
  {
    hide BlocksBytes, ParseBlocks, SkipBlocks, ImageBlocks, AfterBlocks, BlocksFit, BlocksNamed, SmallSizes, Tables;
    var e := Surroundings(table, Sizes(bs), functions, globals);
    var s := BlocksBytes(bs, Sizes(bs), strings) + rest;
    var c := AfterBlocks(bs, ctx);
    BlocksRoundTrip(bs, strings, e, 0, 0, rest, ctx);
    PassesAgree(|bs|, s, e, 0, 0, ctx, ctx);
    SkipKeepsContext(|bs|, s, e, 0, 0, ctx);
    ImageSizes(bs, 0, 0, e, ctx);
    BlocksRoundTrip(bs, strings, e, 0, 0, rest, c);
  }
}
