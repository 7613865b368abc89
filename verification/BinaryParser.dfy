/** The bitcode reader in place: a position that moves through the data, and a type context that fills up. */
module BinaryParsing {
  import opened Powers
  import opened Wrappers
  import opened Bytes
  import opened LittleEndian
  import opened StringTable
  import opened TypeRecords
  import opened FunctionBody
  import opened TwoPasses

  /** The types read so far in front of what the rest of a read gives. */
  function Prepend<T>(done: seq<T>, r: Read<(seq<T>, Context)>): Read<(seq<T>, Context)> {
    match r
    case Got(v, rest) => Got((done + v.0, v.1), rest)
    case Short => Short
  }

  /** A reader that moves over the data. Reading past their end is reported as a failure. */
  class BinaryParser {
    const data: seq<Byte>
    const table: seq<Byte>
    var pos: nat
    var ctx: Context

    constructor (data: seq<Byte>, table: seq<Byte>, ctx: Context)
      ensures this.data == data && this.table == table && pos == 0 && this.ctx == ctx
    {
      this.data, this.table, pos, this.ctx := data, table, 0, ctx;
    }

    /** The bytes not yet read. */
    function Left(): seq<Byte>
      reads this
    {
      if pos <= |data| then data[pos..] else []
    }

    predicate InData()
      reads this
    {
      pos <= |data|
    }

    method ReadByte() returns (r: Option<Byte>)
      requires InData()
      modifies this`pos
      ensures InData()
      ensures match ReadU8(old(Left())) case Got(v, rest) => r == Some(v) && Left() == rest case Short => r == None
    {
      if pos < |data| {
        r := Some(data[pos]);
        pos := pos + 1;
      } else {
        r := None;
      }
    }

    method ReadNumber(n: nat) returns (r: Option<nat>)
      requires InData()
      modifies this`pos
      ensures InData()
      ensures match ReadLE(n, old(Left())) case Got(v, rest) => r == Some(v) && Left() == rest case Short => r == None
    {
      if pos + n > |data| {
        return None;
      }
      var v: nat, i: nat := 0, n;
      while i > 0
        invariant i <= n && pos == old(pos) && v == FromLE(data[pos + i..pos + n])
      {
        i := i - 1;
        assert data[pos + i..pos + n][1..] == data[pos + i + 1..pos + n];
        v := data[pos + i] + 256 * v;
      }
      assert data[pos..pos + n] == Left()[..n];
      pos := pos + n;
      r := Some(v);
    }

    method ReadName() returns (r: Option<Name>)
      requires InData()
      modifies this`pos
      ensures InData()
      ensures match ReadString(table, old(Left()))
              case Got(v, rest) => r == Some(v) && Left() == rest
              case Short => r == None
    {
      Widths();
      var offset := ReadNumber(4);
      if offset.None? { return None; }
      var length := ReadNumber(4);
      if length.None? { return None; }
      if (offset.value + length.value) % 0x1_0000_0000 > |table| {
        return Some([]);
      }
      if offset.value + length.value > |table| {
        return None;
      }
      r := Some(table[offset.value..offset.value + length.value]);
    }

    method ReadTypeRecord() returns (r: Option<IRType>)
      requires InData()
      modifies this
      ensures InData()
      ensures match ReadType(old(Left()), table, old(ctx))
        case Got(v, rest) => r == Some(v.0) && ctx == v.1 && Left() == rest
        case Short => r == None
      decreases |data| - pos, 0
    {
      hide ReadPointer, ReadArray, ReadVector, ReadStruct, ReadFunction, ReadLE, ReadString;
      var kind := ReadByte();
      if kind.None? { return None; }
      match kind.value
      case 1 => r := Some(IntegerType(1));
      case 2 =>
        var w := ReadNumber(4);
        r := if w.None? then None else Some(IntegerType(w.value));
      case 3 =>
        var w := ReadNumber(4);
        r := if w.None? then None else Some(FloatType(w.value));
      case 4 => r := ReadPointerRecord();
      case 5 => r := ReadArrayRecord();
      case 6 => r := ReadStructRecord();
      case 7 => r := ReadFunctionRecord();
      case 8 => r := ReadVectorRecord();
      case 9 =>
        var name := ReadName();
        r := if name.None? then None else Some(OpaqueType(if name.value == [] then DEFAULT_OPAQUE else name.value));
      case _ => r := Some(VoidType);
    }

    method ReadPointerRecord() returns (r: Option<IRType>)
      requires InData()
      modifies this
      ensures InData()
      ensures match ReadPointer(old(Left()), table, old(ctx))
        case Got(v, rest) => r == Some(v.0) && ctx == v.1 && Left() == rest
        case Short => r == None
      decreases |data| - pos, 1
    {
      hide ReadType, ReadLE;
      var p := ReadTypeRecord();
      if p.None? { return None; }
      var a := ReadNumber(4);
      r := if a.None? then None else Some(PointerType(p.value, a.value));
    }

    method ReadArrayRecord() returns (r: Option<IRType>)
      requires InData()
      modifies this
      ensures InData()
      ensures match ReadArray(old(Left()), table, old(ctx))
        case Got(v, rest) => r == Some(v.0) && ctx == v.1 && Left() == rest
        case Short => r == None
      decreases |data| - pos, 1
    {
      hide ReadType, ReadLE;
      var n := ReadNumber(8);
      if n.None? { return None; }
      var e := ReadTypeRecord();
      r := if e.None? then None else Some(ArrayType(n.value, e.value));
    }

    method ReadVectorRecord() returns (r: Option<IRType>)
      requires InData()
      modifies this
      ensures InData()
      ensures match ReadVector(old(Left()), table, old(ctx))
        case Got(v, rest) => r == Some(v.0) && ctx == v.1 && Left() == rest
        case Short => r == None
      decreases |data| - pos, 1
    {
      hide ReadType, ReadLE;
      var n := ReadNumber(4);
      if n.None? { return None; }
      var e := ReadTypeRecord();
      r := if e.None? then None else Some(VectorType(n.value, e.value));
    }

    method ReadStructRecord() returns (r: Option<IRType>)
      requires InData()
      modifies this
      ensures InData()
      ensures match ReadStruct(old(Left()), table, old(ctx))
        case Got(v, rest) => r == Some(v.0) && ctx == v.1 && Left() == rest
        case Short => r == None
      decreases |data| - pos, 2
    {
      hide ReadTypes, ReadLE, ReadString, ReadU8, NamedStruct;
      var name := ReadName();
      if name.None? { return None; }
      var n := ReadNumber(4);
      if n.None? { return None; }
      var fields := ReadTypeList(n.value);
      if fields.None? { return None; }
      var packed := ReadByte();
      if packed.None? { return None; }
      var found := StructFor(name.value, fields.value, ctx);
      ctx := found.1;
      r := Some(found.0);
    }

    method ReadFunctionRecord() returns (r: Option<IRType>)
      requires InData()
      modifies this
      ensures InData()
      ensures match ReadFunction(old(Left()), table, old(ctx))
        case Got(v, rest) => r == Some(v.0) && ctx == v.1 && Left() == rest
        case Short => r == None
      decreases |data| - pos, 2
    {
      hide ReadType, ReadTypes, ReadLE, ReadU8;
      var t := ReadTypeRecord();
      if t.None? { return None; }
      var varArg := ReadByte();
      if varArg.None? { return None; }
      var n := ReadNumber(4);
      if n.None? { return None; }
      var params := ReadTypeList(n.value);
      r := if params.None? then None else Some(FunctionType(t.value, params.value, varArg.value != 0));
    }

    method ReadTypeList(n: nat) returns (r: Option<seq<IRType>>)
      requires InData()
      modifies this
      ensures InData()
      ensures match ReadTypes(n, old(Left()), table, old(ctx))
        case Got(v, rest) => r == Some(v.0) && ctx == v.1 && Left() == rest
        case Short => r == None
      decreases |data| - pos, 1
    {
      hide ReadType;
      var ts: seq<IRType> := [];
      PrependNone(ReadTypes(n, Left(), table, ctx));
      for i := 0 to n
        invariant InData() && old(pos) <= pos
        invariant Prepend(ts, ReadTypes(n - i, Left(), table, ctx)) == ReadTypes(n, old(Left()), table, old(ctx))
      {
        var t := ReadTypeRecord();
        if t.None? { return None; }
        PrependMore(ts, t.value, ReadTypes(n - i - 1, Left(), table, ctx));
        ts := ts + [t.value];
      }
      assert ts + [] == ts;
      r := Some(ts);
    }

    // The skip pass.

    method SkipOneOperand() returns (ok: bool)
      requires InData()
      modifies this
      ensures InData()
      ensures match SkipOperand(old(Left()), table, old(ctx))
        case Got(v, rest) => ok && ctx == v && Left() == rest
        case Short => !ok
    {
      hide ReadLE, ReadType;
      var kind := ReadByte();
      if kind.None? { return false; }
      var n: Option<nat>;
      match kind.value {
        case 0 | 1 =>
          n := ReadNumber(4);
          if n.None? { return false; }
          n := ReadNumber(8);
          return n.Some?;
        case 2 | 3 | 6 =>
          var t := ReadTypeRecord();
          return t.Some?;
        case 9 =>
          n := ReadNumber(4);
          if n.None? { return false; }
          n := ReadNumber(4);
          return n.Some?;
        case 7 | 8 | 10 | 11 =>
          n := ReadNumber(4);
          return n.Some?;
        case _ => return true;
      }
    }

    method SkipSomeOperands(n: nat) returns (ok: bool)
      requires InData()
      modifies this
      ensures InData()
      ensures match SkipOperands(n, old(Left()), table, old(ctx))
        case Got(v, rest) => ok && ctx == v && Left() == rest
        case Short => !ok
    {
      hide SkipOperand;
      for i := 0 to n
        invariant InData()
        invariant SkipOperands(n - i, Left(), table, ctx) == SkipOperands(n, old(Left()), table, old(ctx))
      {
        ok := SkipOneOperand();
        if !ok { return; }
      }
      ok := true;
    }

    method SkipOneInst() returns (ok: bool)
      requires InData()
      modifies this
      ensures InData()
      ensures match SkipInst(old(Left()), table, old(ctx))
        case Got(v, rest) => ok && ctx == v && Left() == rest
        case Short => !ok
    {
      hide ReadLE, ReadU8, ReadType, ReadString, SkipOperands;
      var op := ReadNumber(2);
      if op.None? { return false; }
      var b := ReadByte();
      if b.None? { return false; }
      b := ReadByte();
      if b.None? { return false; }
      var t := ReadTypeRecord();
      if t.None? { return false; }
      var name := ReadName();
      if name.None? { return false; }
      var n := ReadNumber(4);
      if n.None? { return false; }
      ok := SkipSomeOperands(n.value);
    }

    method SkipSomeInsts(n: nat) returns (ok: bool)
      requires InData()
      modifies this
      ensures InData()
      ensures match SkipInsts(n, old(Left()), table, old(ctx))
        case Got(v, rest) => ok && ctx == v && Left() == rest
        case Short => !ok
    {
      hide SkipInst;
      for i := 0 to n
        invariant InData()
        invariant SkipInsts(n - i, Left(), table, ctx) == SkipInsts(n, old(Left()), table, old(ctx))
      {
        ok := SkipOneInst();
        if !ok { return; }
      }
      ok := true;
    }

    /** First pass: the sizes of the blocks. */
    method SkipAllBlocks(n: nat) returns (r: Option<seq<nat>>)
      requires InData()
      modifies this
      ensures InData()
      ensures match SkipBlocks(n, old(Left()), table, old(ctx))
        case Got(v, rest) => r == Some(v.0) && ctx == v.1 && Left() == rest
        case Short => r == None
    {
      hide ReadLE, ReadString, SkipInsts;
      var sizes: seq<nat> := [];
      PrependNone(SkipBlocks(n, Left(), table, ctx));
      for b := 0 to n
        invariant InData()
        invariant Prepend(sizes, SkipBlocks(n - b, Left(), table, ctx)) == SkipBlocks(n, old(Left()), table, old(ctx))
      {
        var name := ReadName();
        if name.None? { return None; }
        var k := ReadNumber(4);
        if k.None? { return None; }
        var ok := SkipSomeInsts(k.value);
        if !ok { return None; }
        PrependMore(sizes, k.value, SkipBlocks(n - b - 1, Left(), table, ctx));
        sizes := sizes + [k.value];
      }
      assert sizes + [] == sizes;
      r := Some(sizes);
    }

    // The parse pass.

    /** Position of instruction i of block b, by adding up the sizes of the blocks before it. */
    method FlatIndex(sizes: seq<nat>, b: nat, i: nat) returns (flat: nat)
      ensures flat == Flat(sizes, b, i)
    {
      flat := 0;
      var c := 0;
      while c < b && c < |sizes|
        invariant c <= b && c <= |sizes|
        invariant flat + Flat(sizes[c..], b - c, i) == Flat(sizes, b, i)
      {
        assert sizes[c..][0] == sizes[c] && sizes[c..][1..] == sizes[c + 1..];
        flat := flat + sizes[c];
        c := c + 1;
      }
      flat := flat + i;
    }

    method ParseOneOperand(e: Surroundings, resTy: IRType, p: nat) returns (r: Option<seq<Operand>>)
      requires InData() && e.table == table
      modifies this
      ensures InData()
      ensures match ParseOperand(old(Left()), e, resTy, p, old(ctx))
        case Got(v, rest) => r == Some(v.0) && ctx == v.1 && Left() == rest
        case Short => r == None
    {
      hide ReadLE, ReadType, Flat, Pow2;
      var kind := ReadByte();
      if kind.None? { return None; }
      match kind.value {
        case 0 =>
          var wv := ReadTwo(4, 8);
          return if wv.None? then None else Some([IntConst(wv.value.0, wv.value.1 % Pow2(wv.value.0))]);
        case 1 =>
          var wv := ReadTwo(4, 8);
          return if wv.None? then None else Some([FloatConst(wv.value.0, wv.value.1 % Pow2(wv.value.0))]);
        case 2 =>
          var t := ReadTypeRecord();
          return if t.None? then None else Some([NullConst(resTy)]);
        case 3 =>
          var t := ReadTypeRecord();
          return if t.None? then None else Some([UndefConst(resTy)]);
        case 6 =>
          var t := ReadTypeRecord();
          return if t.None? then None else Some([ZeroConst(resTy)]);
        case 7 =>
          var i := ReadNumber(4);
          return if i.None? then None else Some(if i.value < e.functions then [FunctionRef(i.value)] else []);
        case 8 =>
          var i := ReadNumber(4);
          return if i.None? then None else Some(if i.value < e.globals then [GlobalRef(i.value)] else []);
        case 9 =>
          var bi := ReadTwo(4, 4);
          if bi.None? { return None; }
          var flat := FlatIndex(e.sizes, bi.value.0, bi.value.1);
          return Some(if flat < p then [ResultOf(flat)] else []);
        case 10 =>
          var i := ReadNumber(4);
          return if i.None? then None else Some([]);
        case 11 =>
          var i := ReadNumber(4);
          return if i.None? then None else Some(if i.value < |e.sizes| then [BlockRef(i.value)] else []);
        case _ => return Some([]);
      }
    }

    /** Two numbers in a row. */
    method ReadTwo(n: nat, m: nat) returns (r: Option<(nat, nat)>)
      requires InData()
      modifies this`pos
      ensures InData()
      ensures match ReadLE(n, old(Left()))
        case Short => r == None
        case Got(v, rest) =>
          match ReadLE(m, rest) case Short => r == None case Got(w, rest2) => r == Some((v, w)) && Left() == rest2
    {
      var v := ReadNumber(n);
      if v.None? { return None; }
      var w := ReadNumber(m);
      r := if w.None? then None else Some((v.value, w.value));
    }

    method ParseSomeOperands(n: nat, e: Surroundings, resTy: IRType, p: nat) returns (r: Option<seq<Operand>>)
      requires InData() && e.table == table
      modifies this
      ensures InData()
      ensures match ParseOperands(n, old(Left()), e, resTy, p, old(ctx))
        case Got(v, rest) => r == Some(v.0) && ctx == v.1 && Left() == rest
        case Short => r == None
    {
      hide ParseOperand;
      var os: seq<Operand> := [];
      PrependNone(ParseOperands(n, Left(), e, resTy, p, ctx));
      for i := 0 to n
        invariant InData()
        invariant Prepend(os, ParseOperands(n - i, Left(), e, resTy, p, ctx))
                  == ParseOperands(n, old(Left()), e, resTy, p, old(ctx))
      {
        var o := ParseOneOperand(e, resTy, p);
        if o.None? { return None; }
        PrependAll(os, o.value, ParseOperands(n - i - 1, Left(), e, resTy, p, ctx));
        os := os + o.value;
      }
      assert os + [] == os;
      r := Some(os);
    }

    method ParseOneInst(e: Surroundings, p: nat) returns (r: Option<Inst>)
      requires InData() && e.table == table
      modifies this
      ensures InData()
      ensures match ParseInst(old(Left()), e, p, old(ctx))
        case Got(v, rest) => r == Some(v.0) && ctx == v.1 && Left() == rest
        case Short => r == None
    {
      hide ReadLE, ReadU8, ReadType, ReadString, ParseOperands;
      var op := ReadNumber(2);
      if op.None? { return None; }
      var dialect := ReadByte();
      if dialect.None? { return None; }
      var pred := ReadByte();
      if pred.None? { return None; }
      var t := ReadTypeRecord();
      if t.None? { return None; }
      var name := ReadName();
      if name.None? { return None; }
      var n := ReadNumber(4);
      if n.None? { return None; }
      var os := ParseSomeOperands(n.value, e, t.value, p);
      if os.None? { return None; }
      var isComparison := op.value == ICMP || op.value == FCMP;
      r := Some(Inst(op.value, 0, if isComparison then pred.value else 0, t.value, name.value, os.value));
    }

    /**
     Instructions of one block. A block that ends with fewer than four bytes left would be cut short without an
     error; the skip pass has been over these bytes before, so that never happens.
     */
    method ParseSomeInsts(n: nat, e: Surroundings, p: nat) returns (r: Option<seq<Inst>>)
      requires InData() && e.table == table
      requires ParseInsts(n, Left(), e, p, ctx).Got?
      modifies this
      ensures InData()
      ensures match ParseInsts(n, old(Left()), e, p, old(ctx))
        case Got(v, rest) => r == Some(v.0) && ctx == v.1 && Left() == rest
        case Short => r == None
    {
      hide ParseInst;
      var xs: seq<Inst> := [];
      PrependNone(ParseInsts(n, Left(), e, p, ctx));
      for i := 0 to n
        invariant InData()
        invariant Prepend(xs, ParseInsts(n - i, Left(), e, p + i, ctx)) == ParseInsts(n, old(Left()), e, p, old(ctx))
      {
        assert pos + 4 <= |data|;
        var x := ParseOneInst(e, p + i);
        if x.None? { return None; }
        PrependMore(xs, x.value, ParseInsts(n - i - 1, Left(), e, p + i + 1, ctx));
        xs := xs + [x.value];
      }
      assert xs + [] == xs;
      r := Some(xs);
    }

    /** Second pass: the blocks with their instructions. */
    method ParseAllBlocks(n: nat, e: Surroundings) returns (r: Option<seq<Block>>)
      requires InData() && e.table == table
      requires ParseBlocks(n, Left(), e, 0, 0, ctx).Got?
      modifies this
      ensures InData()
      ensures match ParseBlocks(n, old(Left()), e, 0, 0, old(ctx))
        case Got(v, rest) => r == Some(v.0) && ctx == v.1 && Left() == rest
        case Short => r == None
    {
      hide ReadLE, ReadString, ParseInsts, BlockName;
      var bs: seq<Block> := [];
      var p := 0;
      PrependNone(ParseBlocks(n, Left(), e, 0, 0, ctx));
      for b := 0 to n
        invariant InData()
        invariant Prepend(bs, ParseBlocks(n - b, Left(), e, b, p, ctx))
                  == ParseBlocks(n, old(Left()), e, 0, 0, old(ctx))
      {
        var name := ReadName();
        if name.None? { return None; }
        var k := ReadNumber(4);
        if k.None? { return None; }
        var xs := ParseSomeInsts(k.value, e, p);
        if xs.None? { return None; }
        p := p + k.value;
        var block := Block(BlockName(name.value, b), xs.value);
        PrependMore(bs, block, ParseBlocks(n - b - 1, Left(), e, b + 1, p, ctx));
        bs := bs + [block];
      }
      assert bs + [] == bs;
      r := Some(bs);
    }

    /** The body of a function with n blocks, in a module with these many functions and globals. */
    method ReadFunctionBody(n: nat, functions: nat, globals: nat) returns (r: Option<seq<Block>>)
      requires InData()
      modifies this
      ensures InData()
      ensures match ReadBody(n, old(Left()), table, functions, globals, old(ctx))
        case Got(v, rest) => r == Some(v.0) && ctx == v.1 && Left() == rest
        case Short => r == None
    {
      hide SkipBlocks, ParseBlocks;
      var savedPos := pos;
      ghost var ctx0 := ctx;
      var sizes := SkipAllBlocks(n);
      if sizes.None? { return None; }
      pos := savedPos;
      var e := Surroundings(table, sizes.value, functions, globals);
      PassesAgree(n, Left(), e, 0, 0, ctx0, ctx);
      r := ParseAllBlocks(n, e);
    }
  }

  lemma PrependMore<T>(done: seq<T>, x: T, r: Read<(seq<T>, Context)>)
    ensures Prepend(done + [x], r) == Prepend(done, Prepend([x], r))
  {
    if r.Got? {
      assert done + [x] + r.value.0 == done + ([x] + r.value.0);
    }
  }

  lemma PrependAll<T>(done: seq<T>, xs: seq<T>, r: Read<(seq<T>, Context)>)
    ensures Prepend(done + xs, r) == Prepend(done, Prepend(xs, r))
  {
    if r.Got? {
      assert done + xs + r.value.0 == done + (xs + r.value.0);
    }
  }

  lemma PrependNone<T>(r: Read<(seq<T>, Context)>)
    ensures Prepend([], r) == r
  {
    if r.Got? {
      assert [] + r.value.0 == r.value.0;
    }
  }
}
