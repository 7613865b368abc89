/** The bitcode writer: appends records to a buffer while the string table grows. */
module BitcodeWriter {
  import opened Bytes
  import opened LittleEndian
  import opened StringTable
  import opened TypeRecords
  import opened FunctionBody

  lemma NameStable(strings: seq<Name>, more: seq<Name>, s: Name)
    requires s in strings && strings <= more
    ensures s in more && NameBytes(more, s) == NameBytes(strings, s)
  {
    RefStable(strings, more, s);
  }

  /** Records already written stay right when strings are added. */
  lemma {:induction false} TypeStable(t: IRType, strings: seq<Name>, more: seq<Name>)
    requires Registered(t, strings) && strings <= more
    ensures Registered(t, more) && TypeBytes(t, more) == TypeBytes(t, strings)
    decreases t, 1
  {
    hide LE, NameBytes, TypesBytes, AllRegistered, StringWriter.Valid;
    match t
    case PointerType(p, _) => TypeStable(p, strings, more);
    case ArrayType(_, e) => TypeStable(e, strings, more);
    case VectorType(_, e) => TypeStable(e, strings, more);
    case StructType(name, fields, _) => NameStable(strings, more, name); TypesStable(fields, strings, more);
    case FunctionType(r, params, _) => TypeStable(r, strings, more); TypesStable(params, strings, more);
    case OpaqueType(name) => NameStable(strings, more, name);
    case _ =>
  }

  lemma {:induction false} TypesStable(ts: seq<IRType>, strings: seq<Name>, more: seq<Name>)
    requires AllRegistered(ts, strings) && strings <= more
    ensures AllRegistered(ts, more) && TypesBytes(ts, more) == TypesBytes(ts, strings)
    decreases ts, 2
  {
    hide TypeBytes;
    if ts != [] {
      TypeStable(ts[0], strings, more);
      TypesStable(ts[1..], strings, more);
    }
  }

  lemma {:induction false} TypesAppend(ts: seq<IRType>, t: IRType, strings: seq<Name>)
    ensures TypesBytes(ts + [t], strings) == TypesBytes(ts, strings) + TypeBytes(t, strings)
    ensures AllRegistered(ts + [t], strings) == (AllRegistered(ts, strings) && Registered(t, strings))
    decreases |ts|
  {
    hide TypeBytes, Registered;
    if ts != [] {
      assert (ts + [t])[1..] == ts[1..] + [t];
      TypesAppend(ts[1..], t, strings);
    } else {
      assert [t][1..] == [] && ts + [t] == [t];
      assert TypesBytes([t], strings) == TypeBytes(t, strings) + TypesBytes([t][1..], strings);
      assert AllRegistered([t][1..], strings);
    }
  }

  method WriteRef(out: seq<Byte>, s: Name, sw: StringWriter) returns (out': seq<Byte>)
    requires sw.Valid()
    modifies sw
    ensures sw.Valid() && old(sw.strings) <= sw.strings && s in sw.strings
    ensures out' == out + NameBytes(sw.strings, s)
  {
    var r := sw.GetRef(s);
    out' := WriteLE(out, 4, r.offset);
    out' := WriteLE(out', 4, r.length);
  }

  method WriteTypeRecord(out: seq<Byte>, t: IRType, sw: StringWriter) returns (out': seq<Byte>)
    requires sw.Valid()
    modifies sw
    ensures sw.Valid() && old(sw.strings) <= sw.strings && Registered(t, sw.strings)
    ensures out' == out + TypeBytes(t, sw.strings)
    decreases t, 1
  {
    hide LE, NameBytes, TypesBytes, AllRegistered, StringWriter.Valid;
    match t
    case VoidType => out' := out + [0];
    case BoolType => out' := out + [1];
    case IntegerType(w) => out' := WriteLE(out + [2], 4, w);
    case FloatType(w) => out' := WriteLE(out + [3], 4, w);
    case PointerType(_, _) =>
      out' := WritePointerRecord(out, t, sw);
    case ArrayType(_, _) =>
      out' := WriteArrayRecord(out, t, sw);
    case VectorType(_, _) =>
      out' := WriteArrayRecord(out, t, sw);
    case OpaqueType(name) =>
      out' := WriteRef(out + [9], name, sw);
    case StructType(_, _, _) =>
      out' := WriteStructRecord(out, t, sw);
    case FunctionType(_, _, _) =>
      out' := WriteFunctionRecord(out, t, sw);
  }

  method WritePointerRecord(out: seq<Byte>, t: IRType, sw: StringWriter) returns (out': seq<Byte>)
    requires t.PointerType? && sw.Valid()
    modifies sw
    ensures sw.Valid() && old(sw.strings) <= sw.strings && Registered(t, sw.strings)
    ensures out' == out + TypeBytes(t, sw.strings)
    decreases t, 0
  {
    hide LE, StringWriter.Valid;
    out' := WriteTypeRecord(out + [4], t.pointee, sw);
    out' := WriteLE(out', 4, t.addressSpace);
  }

  method WriteArrayRecord(out: seq<Byte>, t: IRType, sw: StringWriter) returns (out': seq<Byte>)
    requires (t.ArrayType? || t.VectorType?) && sw.Valid()
    modifies sw
    ensures sw.Valid() && old(sw.strings) <= sw.strings && Registered(t, sw.strings)
    ensures out' == out + TypeBytes(t, sw.strings)
    decreases t, 0
  {
    hide LE, StringWriter.Valid;
    if t.ArrayType? {
      out' := WriteLE(out + [5], 8, t.count);
    } else {
      out' := WriteLE(out + [8], 4, t.lanes);
    }
    out' := WriteTypeRecord(out', t.element, sw);
  }

  method WriteStructRecord(out: seq<Byte>, t: IRType, sw: StringWriter) returns (out': seq<Byte>)
    requires t.StructType? && sw.Valid()
    modifies sw
    ensures sw.Valid() && old(sw.strings) <= sw.strings && Registered(t, sw.strings)
    ensures out' == out + TypeBytes(t, sw.strings)
    decreases t, 0
  {
    hide LE, NameBytes, StringWriter.Valid;
    out' := WriteRef(out + [6], t.name, sw);
    ghost var strings1 := sw.strings;
    out' := WriteLE(out', 4, |t.fields|);
    out' := WriteTypes(out', t.fields, sw);
    NameStable(strings1, sw.strings, t.name);
    out' := out' + [if t.packed then 1 else 0];
  }

  method WriteFunctionRecord(out: seq<Byte>, t: IRType, sw: StringWriter) returns (out': seq<Byte>)
    requires t.FunctionType? && sw.Valid()
    modifies sw
    ensures sw.Valid() && old(sw.strings) <= sw.strings && Registered(t, sw.strings)
    ensures out' == out + TypeBytes(t, sw.strings)
    decreases t, 0
  {
    hide LE, NameBytes, StringWriter.Valid;
    out' := WriteTypeRecord(out + [7], t.ret, sw);
    ghost var strings1 := sw.strings;
    out' := out' + [if t.varArg then 1 else 0];
    out' := WriteLE(out', 4, |t.params|);
    out' := WriteTypes(out', t.params, sw);
    TypeStable(t.ret, strings1, sw.strings);
  }

  method WriteTypes(out: seq<Byte>, ts: seq<IRType>, sw: StringWriter) returns (out': seq<Byte>)
    requires sw.Valid()
    modifies sw
    ensures sw.Valid() && old(sw.strings) <= sw.strings && AllRegistered(ts, sw.strings)
    ensures out' == out + TypesBytes(ts, sw.strings)
    decreases ts, 2
  {
    hide TypeBytes, TypesBytes, Registered, AllRegistered;
    out' := out;
    NoTypes(sw.strings, out);
    for i := 0 to |ts|
      invariant sw.Valid() && old(sw.strings) <= sw.strings && AllRegistered(ts[..i], sw.strings)
      invariant out' == out + TypesBytes(ts[..i], sw.strings)
    {
      ghost var strings1 := sw.strings;
      out' := WriteTypeRecord(out', ts[i], sw);
      TypesStable(ts[..i], strings1, sw.strings);
      TypesAppend(ts[..i], ts[i], sw.strings);
      assert ts[..i] + [ts[i]] == ts[..i + 1];
    }
    assert ts[..|ts|] == ts;
  }

  lemma NoTypes(strings: seq<Name>, out: seq<Byte>)
    ensures AllRegistered([], strings) && out + TypesBytes([], strings) == out
  {
  }

  lemma OperandStable(o: Operand, sizes: seq<nat>, strings: seq<Name>, more: seq<Name>)
    requires OperandNamed(o, strings) && strings <= more
    ensures OperandNamed(o, more) && PayloadBytes(o, sizes, more) == PayloadBytes(o, sizes, strings)
  {
    hide TypeBytes, Registered;
    match o
    case NullConst(t) => TypeStable(t, strings, more);
    case UndefConst(t) => TypeStable(t, strings, more);
    case ZeroConst(t) => TypeStable(t, strings, more);
    case NullOperand => VoidStable(strings, more);
    case _ =>
  }

  lemma VoidStable(strings: seq<Name>, more: seq<Name>)
    ensures TypeBytes(VoidType, more) == TypeBytes(VoidType, strings)
  {
  }

  lemma {:induction false} OperandsStable(os: seq<Operand>, sizes: seq<nat>, strings: seq<Name>, more: seq<Name>)
    requires OperandsNamed(os, strings) && strings <= more
    ensures OperandsNamed(os, more) && OperandsBytes(os, sizes, more) == OperandsBytes(os, sizes, strings)
    decreases |os|
  {
    hide PayloadBytes, OperandNamed;
    if os != [] {
      OperandStable(os[0], sizes, strings, more);
      OperandsStable(os[1..], sizes, strings, more);
    }
  }

  lemma {:induction false} OperandsAppend(os: seq<Operand>, o: Operand, sizes: seq<nat>, strings: seq<Name>)
    ensures OperandsBytes(os + [o], sizes, strings)
            == OperandsBytes(os, sizes, strings) + ([KindOf(o)] + PayloadBytes(o, sizes, strings))
    ensures OperandsNamed(os + [o], strings) == (OperandsNamed(os, strings) && OperandNamed(o, strings))
    decreases |os|
  {
    hide PayloadBytes, OperandNamed, KindOf;
    if os != [] {
      assert (os + [o])[1..] == os[1..] + [o];
      OperandsAppend(os[1..], o, sizes, strings);
    } else {
      assert [o][1..] == [] && os + [o] == [o];
      assert OperandsBytes([o], sizes, strings)
             == [KindOf(o)] + PayloadBytes(o, sizes, strings) + OperandsBytes([o][1..], sizes, strings);
      assert OperandsNamed([o][1..], strings);
    }
  }

  lemma InstStable(i: Inst, sizes: seq<nat>, strings: seq<Name>, more: seq<Name>)
    requires InstNamed(i, strings) && strings <= more
    ensures InstNamed(i, more) && InstBytes(i, sizes, more) == InstBytes(i, sizes, strings)
  {
    hide TypeBytes, NameBytes, OperandsBytes, LE;
    NameStable(strings, more, i.name);
    TypeStable(i.ty, strings, more);
    OperandsStable(i.operands, sizes, strings, more);
  }

  lemma {:induction false} InstsStable(xs: seq<Inst>, sizes: seq<nat>, strings: seq<Name>, more: seq<Name>)
    requires InstsNamed(xs, strings) && strings <= more
    ensures InstsNamed(xs, more) && InstsBytes(xs, sizes, more) == InstsBytes(xs, sizes, strings)
    decreases |xs|
  {
    hide InstBytes, InstNamed;
    if xs != [] {
      InstStable(xs[0], sizes, strings, more);
      InstsStable(xs[1..], sizes, strings, more);
    }
  }

  lemma {:induction false} InstsAppend(xs: seq<Inst>, x: Inst, sizes: seq<nat>, strings: seq<Name>)
    ensures InstsBytes(xs + [x], sizes, strings) == InstsBytes(xs, sizes, strings) + InstBytes(x, sizes, strings)
    ensures InstsNamed(xs + [x], strings) == (InstsNamed(xs, strings) && InstNamed(x, strings))
    decreases |xs|
  {
    hide InstBytes, InstNamed;
    if xs != [] {
      assert (xs + [x])[1..] == xs[1..] + [x];
      InstsAppend(xs[1..], x, sizes, strings);
    } else {
      assert [x][1..] == [] && xs + [x] == [x];
      assert InstsBytes([x], sizes, strings) == InstBytes(x, sizes, strings) + InstsBytes([x][1..], sizes, strings);
      assert InstsNamed([x][1..], strings);
    }
  }

  function BlockBytes(b: Block, sizes: seq<nat>, strings: seq<Name>): seq<Byte> {
    NameBytes(strings, b.name) + LE(4, |b.insts|) + InstsBytes(b.insts, sizes, strings)
  }

  lemma {:induction false} BlocksStable(bs: seq<Block>, sizes: seq<nat>, strings: seq<Name>, more: seq<Name>)
    requires BlocksNamed(bs, strings) && strings <= more
    ensures BlocksNamed(bs, more) && BlocksBytes(bs, sizes, more) == BlocksBytes(bs, sizes, strings)
    decreases |bs|
  {
    hide InstsBytes, NameBytes, InstsNamed, LE;
    if bs != [] {
      NameStable(strings, more, bs[0].name);
      InstsStable(bs[0].insts, sizes, strings, more);
      BlocksStable(bs[1..], sizes, strings, more);
    }
  }

  lemma {:induction false} BlocksAppend(bs: seq<Block>, b: Block, sizes: seq<nat>, strings: seq<Name>)
    ensures BlocksBytes(bs + [b], sizes, strings) == BlocksBytes(bs, sizes, strings) + BlockBytes(b, sizes, strings)
    ensures BlocksNamed(bs + [b], strings)
            == (BlocksNamed(bs, strings) && b.name in strings && InstsNamed(b.insts, strings))
    decreases |bs|
  {
    hide InstsBytes, InstsNamed, NameBytes, LE;
    if bs != [] {
      assert (bs + [b])[1..] == bs[1..] + [b];
      BlocksAppend(bs[1..], b, sizes, strings);
    } else {
      assert [b][1..] == [] && bs + [b] == [b];
      assert BlocksBytes([b], sizes, strings) == BlockBytes(b, sizes, strings) + BlocksBytes([b][1..], sizes, strings);
      assert BlocksNamed([b][1..], strings);
    }
  }

  /** The search through the blocks for the instruction at a position. */
  method FindInst(sizes: seq<nat>, position: nat) returns (b: nat, i: nat)
    ensures (b, i) == Locate(sizes, position)
  {
    b, i := 0, 0;
    var seen := 0;
    while b < |sizes|
      invariant b <= |sizes| && seen <= position
      invariant var (c, j) := Locate(sizes[b..], position - seen); Locate(sizes, position) == (b + c, j)
    {
      assert sizes[b..][0] == sizes[b] && sizes[b..][1..] == sizes[b + 1..];
      i := 0;
      while i < sizes[b]
        invariant i <= sizes[b] && seen + i <= position
      {
        if seen + i == position {
          return;
        }
        i := i + 1;
      }
      seen := seen + sizes[b];
      b := b + 1;
    }
    i := 0;
  }

  method WriteOperand(out: seq<Byte>, o: Operand, sizes: seq<nat>, sw: StringWriter) returns (out': seq<Byte>)
    requires sw.Valid()
    modifies sw
    ensures sw.Valid() && old(sw.strings) <= sw.strings && OperandNamed(o, sw.strings)
    ensures out' == out + ([KindOf(o)] + PayloadBytes(o, sizes, sw.strings))
  {
    hide LE, TypeBytes, Registered, Locate;
    Widths();
    out' := out + [KindOf(o)];
    match o
    case IntConst(w, v) => out' := WriteLE(out', 4, w); out' := WriteLE(out', 8, v % 0x1_0000_0000_0000_0000);
    case FloatConst(w, v) => out' := WriteLE(out', 4, w); out' := WriteLE(out', 8, v % 0x1_0000_0000_0000_0000);
    case NullOperand => out' := WriteTypeRecord(out', VoidType, sw);
    case NullConst(t) => out' := WriteTypeRecord(out', t, sw);
    case UndefConst(t) => out' := WriteTypeRecord(out', t, sw);
    case ZeroConst(t) => out' := WriteTypeRecord(out', t, sw);
    case StructConst =>
    case ArrayConst =>
    case FunctionRef(i) => out' := WriteLE(out', 4, i);
    case GlobalRef(i) => out' := WriteLE(out', 4, i);
    case ResultOf(p) =>
      var b, i := FindInst(sizes, p);
      out' := WriteLE(out', 4, b);
      out' := WriteLE(out', 4, i);
    case ArgumentRef(_) => out' := WriteLE(out', 4, 0);
    case BlockRef(b) => out' := WriteLE(out', 4, if b < |sizes| then b else |sizes|);
  }

  method WriteInst(out: seq<Byte>, x: Inst, sizes: seq<nat>, sw: StringWriter) returns (out': seq<Byte>)
    requires sw.Valid()
    modifies sw
    ensures sw.Valid() && old(sw.strings) <= sw.strings && InstNamed(x, sw.strings)
    ensures out' == out + InstBytes(x, sizes, sw.strings)
  {
    hide LE, TypeBytes, NameBytes, OperandsBytes, OperandsNamed, Registered, PayloadBytes, StringWriter.Valid;
    out' := WriteLE(out, 2, x.opcode);
    out' := out' + [x.dialect] + [if x.opcode == ICMP || x.opcode == FCMP then x.predicateByte else 0];
    ghost var head := out';
    out' := WriteTypeRecord(out', x.ty, sw);
    ghost var strings1 := sw.strings;
    out' := WriteRef(out', x.name, sw);
    ghost var strings2 := sw.strings;
    out' := WriteLE(out', 4, |x.operands|);
    out' := WriteOperands(out', x.operands, sizes, sw);
    TypeStable(x.ty, strings1, sw.strings);
    TypeStable(x.ty, strings1, strings2);
    NameStable(strings2, sw.strings, x.name);
    assert out' == head + TypeBytes(x.ty, sw.strings) + NameBytes(sw.strings, x.name) + LE(4, |x.operands|)
      + OperandsBytes(x.operands, sizes, sw.strings);
  }

  method WriteOperands(out: seq<Byte>, os: seq<Operand>, sizes: seq<nat>, sw: StringWriter) returns (out': seq<Byte>)
    requires sw.Valid()
    modifies sw
    ensures sw.Valid() && old(sw.strings) <= sw.strings && OperandsNamed(os, sw.strings)
    ensures out' == out + OperandsBytes(os, sizes, sw.strings)
  {
    hide PayloadBytes, KindOf, OperandNamed;
    out' := out;
    for i := 0 to |os|
      invariant sw.Valid() && old(sw.strings) <= sw.strings && OperandsNamed(os[..i], sw.strings)
      invariant out' == out + OperandsBytes(os[..i], sizes, sw.strings)
    {
      ghost var strings1 := sw.strings;
      out' := WriteOperand(out', os[i], sizes, sw);
      OperandsStable(os[..i], sizes, strings1, sw.strings);
      OperandsAppend(os[..i], os[i], sizes, sw.strings);
      assert os[..i] + [os[i]] == os[..i + 1];
    }
    assert os[..|os|] == os;
  }

  method WriteInsts(out: seq<Byte>, xs: seq<Inst>, sizes: seq<nat>, sw: StringWriter) returns (out': seq<Byte>)
    requires sw.Valid()
    modifies sw
    ensures sw.Valid() && old(sw.strings) <= sw.strings && InstsNamed(xs, sw.strings)
    ensures out' == out + InstsBytes(xs, sizes, sw.strings)
  {
    hide InstBytes, InstNamed;
    out' := out;
    for i := 0 to |xs|
      invariant sw.Valid() && old(sw.strings) <= sw.strings && InstsNamed(xs[..i], sw.strings)
      invariant out' == out + InstsBytes(xs[..i], sizes, sw.strings)
    {
      ghost var strings1 := sw.strings;
      out' := WriteInst(out', xs[i], sizes, sw);
      InstsStable(xs[..i], sizes, strings1, sw.strings);
      InstsAppend(xs[..i], xs[i], sizes, sw.strings);
      assert xs[..i] + [xs[i]] == xs[..i + 1];
    }
    assert xs[..|xs|] == xs;
  }

  /** All blocks of a function, in order. */
  method WriteBlocks(out: seq<Byte>, bs: seq<Block>, sw: StringWriter) returns (out': seq<Byte>)
    requires sw.Valid()
    modifies sw
    ensures sw.Valid() && old(sw.strings) <= sw.strings && BlocksNamed(bs, sw.strings)
    ensures out' == out + BlocksBytes(bs, Sizes(bs), sw.strings)
  {
    hide BlockBytes, InstsNamed, LE, NameBytes, InstsBytes, StringWriter.Valid;
    var sizes := Sizes(bs);
    out' := out;
    for i := 0 to |bs|
      invariant sw.Valid() && old(sw.strings) <= sw.strings && BlocksNamed(bs[..i], sw.strings)
      invariant out' == out + BlocksBytes(bs[..i], sizes, sw.strings)
    {
      ghost var strings1 := sw.strings;
      out' := WriteBlock(out', bs[i], sizes, sw);
      BlocksStable(bs[..i], sizes, strings1, sw.strings);
      BlocksAppend(bs[..i], bs[i], sizes, sw.strings);
      assert bs[..i] + [bs[i]] == bs[..i + 1];
    }
    assert bs[..|bs|] == bs;
  }

  method WriteBlock(out: seq<Byte>, b: Block, sizes: seq<nat>, sw: StringWriter) returns (out': seq<Byte>)
    requires sw.Valid()
    modifies sw
    ensures sw.Valid() && old(sw.strings) <= sw.strings && b.name in sw.strings && InstsNamed(b.insts, sw.strings)
    ensures out' == out + BlockBytes(b, sizes, sw.strings)
  {
    hide InstsNamed, LE, NameBytes, InstsBytes;
    out' := WriteRef(out, b.name, sw);
    ghost var strings1 := sw.strings;
    out' := WriteLE(out', 4, |b.insts|);
    out' := WriteInsts(out', b.insts, sizes, sw);
    NameStable(strings1, sw.strings, b.name);
  }
}
