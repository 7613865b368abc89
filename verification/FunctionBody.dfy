/** Function bodies in bitcode: what the writer emits, what the reader's two passes make of it. */
module FunctionBody {
  import opened Powers
  import opened Bytes
  import opened LittleEndian
  import opened Numerals
  import opened StringTable
  import opened TypeRecords

  /**
   Operands. A result is identified by the position of its instruction in layout order, a block by its position
   in the function; positions past the end stand for instructions and blocks of other functions. A function or
   global is identified by its position in the module. A float constant is its bit pattern.
   */
  datatype Operand =
    | NullOperand
    | IntConst(width: nat, value: nat)
    | FloatConst(width: nat, bits: nat)
    | NullConst(ty: IRType)
    | UndefConst(ty: IRType)
    | ZeroConst(ty: IRType)
    | StructConst
    | ArrayConst
    | FunctionRef(position: nat)
    | GlobalRef(position: nat)
    | ResultOf(position: nat)
    | ArgumentRef(number: nat)
    | BlockRef(block: nat)

  datatype Inst = Inst(opcode: nat, dialect: Byte, predicateByte: Byte, ty: IRType, name: Name, operands: seq<Operand>)

  datatype Block = Block(name: Name, insts: seq<Inst>)

  const ICMP: nat := 96
  const FCMP: nat := 97

  predicate IsComparison(opcode: nat) {
    opcode == ICMP || opcode == FCMP
  }

  /** Numbers fit the fields of the format. */
  predicate OperandFits(o: Operand) {
    match o
    case IntConst(w, _) => w < Pow256(4)
    case FloatConst(w, _) => w < Pow256(4)
    case NullConst(t) => WellSized(t)
    case UndefConst(t) => WellSized(t)
    case ZeroConst(t) => WellSized(t)
    case FunctionRef(i) => i < Pow256(4)
    case GlobalRef(i) => i < Pow256(4)
    case _ => true
  }

  predicate OperandsFit(os: seq<Operand>) {
    os == [] || (OperandFits(os[0]) && OperandsFit(os[1..]))
  }

  predicate InstFits(i: Inst) {
    i.opcode < Pow256(2) && WellSized(i.ty) && |i.operands| < Pow256(4) && OperandsFit(i.operands)
  }

  predicate InstsFit(xs: seq<Inst>) {
    xs == [] || (InstFits(xs[0]) && InstsFit(xs[1..]))
  }

  predicate BlocksFit(bs: seq<Block>) {
    bs == [] || (|bs[0].insts| < Pow256(4) && InstsFit(bs[0].insts) && BlocksFit(bs[1..]))
  }

  /** The names used are in the string table. */
  predicate OperandNamed(o: Operand, strings: seq<Name>) {
    match o
    case NullConst(t) => Registered(t, strings)
    case UndefConst(t) => Registered(t, strings)
    case ZeroConst(t) => Registered(t, strings)
    case _ => true
  }

  predicate OperandsNamed(os: seq<Operand>, strings: seq<Name>) {
    os == [] || (OperandNamed(os[0], strings) && OperandsNamed(os[1..], strings))
  }

  predicate InstNamed(i: Inst, strings: seq<Name>) {
    i.name in strings && Registered(i.ty, strings) && OperandsNamed(i.operands, strings)
  }

  predicate InstsNamed(xs: seq<Inst>, strings: seq<Name>) {
    xs == [] || (InstNamed(xs[0], strings) && InstsNamed(xs[1..], strings))
  }

  predicate BlocksNamed(bs: seq<Block>, strings: seq<Name>) {
    bs == [] || (bs[0].name in strings && InstsNamed(bs[0].insts, strings) && BlocksNamed(bs[1..], strings))
  }

  function Sizes(blocks: seq<Block>): seq<nat> {
    seq(|blocks|, b requires 0 <= b < |blocks| => |blocks[b].insts|)
  }

  function Sum(sizes: seq<nat>): nat {
    if sizes == [] then 0 else sizes[0] + Sum(sizes[1..])
  }

  /** Block and index of the instruction at a position; (number of blocks, 0) if it is not in the function. */
  function Locate(sizes: seq<nat>, position: nat): (nat, nat) {
    if sizes == [] then (0, 0)
    else if position < sizes[0] then (0, position)
    else
      var (b, i) := Locate(sizes[1..], position - sizes[0]);
      (b + 1, i)
  }

  /** Position of instruction i of block b. */
  function Flat(sizes: seq<nat>, b: nat, i: nat): nat {
    if b == 0 || sizes == [] then i else sizes[0] + Flat(sizes[1..], b - 1, i)
  }

  /** Block and index find the way back to the position. */
  lemma {:induction false} FlatLocate(sizes: seq<nat>, position: nat)
    ensures var (b, i) := Locate(sizes, position);
      && Flat(sizes, b, i) == (if position < Sum(sizes) then position else Sum(sizes))
      && b <= |sizes| && (i == 0 || (b < |sizes| && i < sizes[b]))
  {
    if sizes != [] && position >= sizes[0] {
      FlatLocate(sizes[1..], position - sizes[0]);
    }
  }

  /** What a reader needs beside the bytes: string table, block sizes, and the numbers of functions and globals. */
  datatype Surroundings = Surroundings(table: seq<Byte>, sizes: seq<nat>, functions: nat, globals: nat)

  function KindOf(o: Operand): Byte {
    match o
    case IntConst(_, _) => 0
    case FloatConst(_, _) => 1
    case NullOperand => 2
    case NullConst(_) => 2
    case UndefConst(_) => 3
    case StructConst => 4
    case ArrayConst => 5
    case ZeroConst(_) => 6
    case FunctionRef(_) => 7
    case GlobalRef(_) => 8
    case ResultOf(_) => 9
    case ArgumentRef(_) => 10
    case BlockRef(_) => 11
  }

  /** What follows the kind byte. The struct and array constants write nothing more, an argument writes zero. */
  function PayloadBytes(o: Operand, sizes: seq<nat>, strings: seq<Name>): seq<Byte> {
    match o
    case IntConst(w, v) => LE(4, w) + LE(8, v % Pow256(8))
    case FloatConst(w, v) => LE(4, w) + LE(8, v % Pow256(8))
    case NullOperand => TypeBytes(VoidType, strings)
    case NullConst(t) => TypeBytes(t, strings)
    case UndefConst(t) => TypeBytes(t, strings)
    case ZeroConst(t) => TypeBytes(t, strings)
    case StructConst => []
    case ArrayConst => []
    case FunctionRef(i) => LE(4, i)
    case GlobalRef(i) => LE(4, i)
    case ResultOf(p) => LE(4, Locate(sizes, p).0) + LE(4, Locate(sizes, p).1)
    case ArgumentRef(_) => LE(4, 0)
    case BlockRef(b) => LE(4, if b < |sizes| then b else |sizes|)
  }

  function OperandsBytes(os: seq<Operand>, sizes: seq<nat>, strings: seq<Name>): seq<Byte> {
    if os == [] then []
    else [KindOf(os[0])] + PayloadBytes(os[0], sizes, strings) + OperandsBytes(os[1..], sizes, strings)
  }

  function InstBytes(i: Inst, sizes: seq<nat>, strings: seq<Name>): seq<Byte> {
    LE(2, i.opcode) + [i.dialect] + [if IsComparison(i.opcode) then i.predicateByte else 0]
    + TypeBytes(i.ty, strings) + NameBytes(strings, i.name)
    + LE(4, |i.operands|) + OperandsBytes(i.operands, sizes, strings)
  }

  function InstsBytes(xs: seq<Inst>, sizes: seq<nat>, strings: seq<Name>): seq<Byte> {
    if xs == [] then [] else InstBytes(xs[0], sizes, strings) + InstsBytes(xs[1..], sizes, strings)
  }

  function BlocksBytes(bs: seq<Block>, sizes: seq<nat>, strings: seq<Name>): seq<Byte> {
    if bs == [] then []
    else
      NameBytes(strings, bs[0].name) + LE(4, |bs[0].insts|) + InstsBytes(bs[0].insts, sizes, strings)
      + BlocksBytes(bs[1..], sizes, strings)
  }

  // The parse pass.

  /** One operand of an instruction of type resTy that is p-th in layout order; an empty list if it is dropped. */
  function ParseOperand(s: seq<Byte>, e: Surroundings, resTy: IRType, p: nat, ctx: Context)
    : (r: Read<(seq<Operand>, Context)>)
    ensures r.Got? ==> |r.rest| < |s|
  {
    var (kind, s1) :- ReadU8(s);
    match kind
    case 0 => (var (w, s2) :- ReadLE(4, s1); var (v, s3) :- ReadLE(8, s2); Got(([IntConst(w, v % Pow2(w))], ctx), s3))
    case 1 => (var (w, s2) :- ReadLE(4, s1); var (v, s3) :- ReadLE(8, s2); Got(([FloatConst(w, v % Pow2(w))], ctx), s3))
    case 2 => (var (t, s2) :- ReadType(s1, e.table, ctx); Got(([NullConst(resTy)], t.1), s2))
    case 3 => (var (t, s2) :- ReadType(s1, e.table, ctx); Got(([UndefConst(resTy)], t.1), s2))
    case 6 => (var (t, s2) :- ReadType(s1, e.table, ctx); Got(([ZeroConst(resTy)], t.1), s2))
    case 7 => (var (i, s2) :- ReadLE(4, s1); Got((if i < e.functions then [FunctionRef(i)] else [], ctx), s2))
    case 8 => (var (i, s2) :- ReadLE(4, s1); Got((if i < e.globals then [GlobalRef(i)] else [], ctx), s2))
    case 9 =>
      (var (b, s2) :- ReadLE(4, s1);
       var (i, s3) :- ReadLE(4, s2);
       Got((if Flat(e.sizes, b, i) < p then [ResultOf(Flat(e.sizes, b, i))] else [], ctx), s3))
    case 10 => (var (i, s2) :- ReadLE(4, s1); Got(([], ctx), s2))
    case 11 => (var (i, s2) :- ReadLE(4, s1); Got((if i < |e.sizes| then [BlockRef(i)] else [], ctx), s2))
    case _ => Got(([], ctx), s1)
  }

  function ParseOperands(n: nat, s: seq<Byte>, e: Surroundings, resTy: IRType, p: nat, ctx: Context)
    : (r: Read<(seq<Operand>, Context)>)
    ensures r.Got? ==> |r.rest| <= |s|
  {
    if n == 0 then Got(([], ctx), s)
    else
      var (o, s1) :- ParseOperand(s, e, resTy, p, ctx);
      var (os, s2) :- ParseOperands(n - 1, s1, e, resTy, p, o.1);
      Got((o.0 + os.0, os.1), s2)
  }

  /** The dialect is read and dropped, the predicate kept for comparisons only. */
  function ParseInst(s: seq<Byte>, e: Surroundings, p: nat, ctx: Context): (r: Read<(Inst, Context)>)
    ensures r.Got? ==> |r.rest| < |s| && 4 <= |s|
  {
    var (op, s1) :- ReadLE(2, s);
    var (_, s2) :- ReadU8(s1);
    var (pred, s3) :- ReadU8(s2);
    var (t, s4) :- ReadType(s3, e.table, ctx);
    var (name, s5) :- ReadString(e.table, s4);
    var (n, s6) :- ReadLE(4, s5);
    var (os, s7) :- ParseOperands(n, s6, e, t.0, p, t.1);
    Got((Inst(op, 0, if IsComparison(op) then pred else 0, t.0, name, os.0), os.1), s7)
  }

  function ParseInsts(n: nat, s: seq<Byte>, e: Surroundings, p: nat, ctx: Context): (r: Read<(seq<Inst>, Context)>)
    ensures r.Got? ==> |r.rest| <= |s| && |r.value.0| == n
  {
    if n == 0 then Got(([], ctx), s)
    else
      var (i, s1) :- ParseInst(s, e, p, ctx);
      var (xs, s2) :- ParseInsts(n - 1, s1, e, p + 1, i.1);
      Got(([i.0] + xs.0, xs.1), s2)
  }

  /** "bb" and the number of the block. */
  function BlockName(name: Name, b: nat): Name {
    if name == [] then [98, 98] + Characters(Dec(b)) else name
  }

  /** n blocks, the first of them number b and with its first instruction at position p. */
  function ParseBlocks(n: nat, s: seq<Byte>, e: Surroundings, b: nat, p: nat, ctx: Context)
    : (r: Read<(seq<Block>, Context)>)
    ensures r.Got? ==> |r.rest| <= |s|
  {
    if n == 0 then Got(([], ctx), s)
    else
      var (name, s1) :- ReadString(e.table, s);
      var (k, s2) :- ReadLE(4, s1);
      var (xs, s3) :- ParseInsts(k, s2, e, p, ctx);
      var (bs, s4) :- ParseBlocks(n - 1, s3, e, b + 1, p + k, xs.1);
      Got(([Block(BlockName(name, b), xs.0)] + bs.0, bs.1), s4)
  }

  // The skip pass: it finds block names and sizes and otherwise only moves on.

  function SkipOperand(s: seq<Byte>, table: seq<Byte>, ctx: Context): (r: Read<Context>)
    ensures r.Got? ==> |r.rest| < |s|
  {
    var (kind, s1) :- ReadU8(s);
    match kind
    case 0 => (var (_, s2) :- ReadLE(4, s1); var (_, s3) :- ReadLE(8, s2); Got(ctx, s3))
    case 1 => (var (_, s2) :- ReadLE(4, s1); var (_, s3) :- ReadLE(8, s2); Got(ctx, s3))
    case 2 => (var (t, s2) :- ReadType(s1, table, ctx); Got(t.1, s2))
    case 3 => (var (t, s2) :- ReadType(s1, table, ctx); Got(t.1, s2))
    case 6 => (var (t, s2) :- ReadType(s1, table, ctx); Got(t.1, s2))
    case 7 => (var (_, s2) :- ReadLE(4, s1); Got(ctx, s2))
    case 8 => (var (_, s2) :- ReadLE(4, s1); Got(ctx, s2))
    case 9 => (var (_, s2) :- ReadLE(4, s1); var (_, s3) :- ReadLE(4, s2); Got(ctx, s3))
    case 10 => (var (_, s2) :- ReadLE(4, s1); Got(ctx, s2))
    case 11 => (var (_, s2) :- ReadLE(4, s1); Got(ctx, s2))
    case _ => Got(ctx, s1)
  }

  function SkipOperands(n: nat, s: seq<Byte>, table: seq<Byte>, ctx: Context): (r: Read<Context>)
    ensures r.Got? ==> |r.rest| <= |s|
  {
    if n == 0 then Got(ctx, s)
    else
      var (c, s1) :- SkipOperand(s, table, ctx);
      SkipOperands(n - 1, s1, table, c)
  }

  function SkipInst(s: seq<Byte>, table: seq<Byte>, ctx: Context): (r: Read<Context>)
    ensures r.Got? ==> |r.rest| < |s|
  {
    var (_, s1) :- ReadLE(2, s);
    var (_, s2) :- ReadU8(s1);
    var (_, s3) :- ReadU8(s2);
    var (t, s4) :- ReadType(s3, table, ctx);
    var (_, s5) :- ReadString(table, s4);
    var (n, s6) :- ReadLE(4, s5);
    SkipOperands(n, s6, table, t.1)
  }

  function SkipInsts(n: nat, s: seq<Byte>, table: seq<Byte>, ctx: Context): (r: Read<Context>)
    ensures r.Got? ==> |r.rest| <= |s|
  {
    if n == 0 then Got(ctx, s)
    else
      var (c, s1) :- SkipInst(s, table, ctx);
      SkipInsts(n - 1, s1, table, c)
  }

  /** Sizes of the n blocks from number b on. */
  function SkipBlocks(n: nat, s: seq<Byte>, table: seq<Byte>, ctx: Context): (r: Read<(seq<nat>, Context)>)
    ensures r.Got? ==> |r.rest| <= |s|
  {
    if n == 0 then Got(([], ctx), s)
    else
      var (_, s1) :- ReadString(table, s);
      var (k, s2) :- ReadLE(4, s1);
      var (c, s3) :- SkipInsts(k, s2, table, ctx);
      var (ks, s4) :- SkipBlocks(n - 1, s3, table, c);
      Got(([k] + ks.0, ks.1), s4)
  }

  /** Both passes over the body of a function with n blocks. */
  function ReadBody(n: nat, s: seq<Byte>, table: seq<Byte>, functions: nat, globals: nat, ctx: Context)
    : Read<(seq<Block>, Context)>
  {
    var (sizes, _) :- SkipBlocks(n, s, table, ctx);
    ParseBlocks(n, s, Surroundings(table, sizes.0, functions, globals), 0, 0, sizes.1)
  }
}
