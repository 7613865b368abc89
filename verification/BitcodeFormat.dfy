/** The bytes of the format, byte by byte, and the opcodes whose predicate is kept. */
module BitcodeFormat {
  import opened Bytes
  import opened LittleEndian
  import opened Numerals
  import opened StringTable
  import opened TypeRecords
  import opened FunctionBody
  import opened BodyRoundTrip

  // ---- The header of an instruction ----

  /** Two bytes of opcode, lowest first, the dialect, and the predicate of opcodes 96 and 97, else zero. */
  lemma HeaderBytes(i: Inst, sizes: seq<nat>, strings: seq<Name>)
    ensures var s := InstBytes(i, sizes, strings);
      |s| > 4 && s[0] == i.opcode % 256 && s[1] == i.opcode / 256 % 256 && s[2] == i.dialect
      && s[3] == if i.opcode == 96 || i.opcode == 97 then i.predicateByte else 0
  {
    hide TypeBytes, NameBytes, OperandsBytes;
    assert LE(2, i.opcode) == [i.opcode % 256] + ([i.opcode / 256 % 256] + []);
    hide LE;
  }

  /** Whatever is read, the predicate byte is kept for those two opcodes and no others, and the dialect for none. */
  lemma HeaderRead(s: seq<Byte>, e: Surroundings, p: nat, ctx: Context)
    requires ParseInst(s, e, p, ctx).Got?
    ensures var i := ParseInst(s, e, p, ctx).value.0;
      var low: nat, high: nat := s[0], s[1];
      i.opcode == low + 256 * high && i.dialect == 0
      && i.predicateByte == if low + 256 * high == 96 || low + 256 * high == 97 then s[3] else 0
  {
    hide ReadType, ReadString, ParseOperands;
    var w := s[..2];
    assert w[1..] == [s[1]] && [s[1]][1..] == [];
    assert FromLE([s[1]]) == s[1];
    assert s[2..][1..] == s[3..];
  }

  /** An instruction read back has its opcode, and its predicate exactly if it was zero or the opcode is one of the
    * two. */
  lemma PredicateComesBackIff(i: Inst, p: nat, e: Surroundings, ctx: Context)
    ensures ImageInst(i, p, e, ctx).opcode == i.opcode
    ensures ImageInst(i, p, e, ctx).predicateByte == i.predicateByte <==>
            i.opcode == 96 || i.opcode == 97 || i.predicateByte == 0
    ensures i.opcode != 96 && i.opcode != 97 ==> ImageInst(i, p, e, ctx).predicateByte == 0
  {
    hide Interned, ImageOperands;
  }

  // ---- Kinds ----

  /** The numbers of the kinds of types. */
  lemma TypeKinds(t: IRType, strings: seq<Name>)
    ensures var kind := TypeBytes(t, strings)[0];
      && (kind == 0 <==> t.VoidType?) && (kind == 1 <==> t.BoolType?) && (kind == 2 <==> t.IntegerType?)
      && (kind == 3 <==> t.FloatType?) && (kind == 4 <==> t.PointerType?) && (kind == 5 <==> t.ArrayType?)
      && (kind == 6 <==> t.StructType?) && (kind == 7 <==> t.FunctionType?) && (kind == 8 <==> t.VectorType?)
      && (kind == 9 <==> t.OpaqueType?)
  {
    hide LE, NameBytes, TypesBytes;
  }

  /** The numbers of the kinds of operands; a missing operand is written as a null constant. */
  lemma OperandKinds(o: Operand)
    ensures var kind := KindOf(o);
      && (kind == 0 <==> o.IntConst?) && (kind == 1 <==> o.FloatConst?)
          && (kind == 2 <==> o.NullConst? || o.NullOperand?)
      && (kind == 3 <==> o.UndefConst?) && (kind == 4 <==> o.StructConst?) && (kind == 5 <==> o.ArrayConst?)
      && (kind == 6 <==> o.ZeroConst?) && (kind == 7 <==> o.FunctionRef?) && (kind == 8 <==> o.GlobalRef?)
      && (kind == 9 <==> o.ResultOf?) && (kind == 10 <==> o.ArgumentRef?) && (kind == 11 <==> o.BlockRef?)
  {
  }

  // ---- Worked examples ----

  lemma Small(n: nat)
    requires n < 256
    ensures LE(1, n) == [n] && LE(2, n) == [n, 0] && LE(3, n) == [n, 0, 0] && LE(4, n) == [n, 0, 0, 0]
    ensures LE(8, n) == [n, 0, 0, 0, 0, 0, 0, 0]
  {
    assert LE(0, 0) == [] && LE(1, 0) == [0] && LE(2, 0) == [0, 0] && LE(3, 0) == [0, 0, 0];
    assert LE(4, 0) == [0, 0, 0, 0] && LE(5, 0) == [0, 0, 0, 0, 0];
    assert LE(6, 0) == [0, 0, 0, 0, 0, 0] && LE(7, 0) == [0, 0, 0, 0, 0, 0, 0];
    assert LE(0, n / 256) == [];
  }

  /** A number of four bytes that are all different. */
  lemma FourBytes()
    ensures LE(4, 0x0403_0201) == [1, 2, 3, 4]
  {
    assert LE(0, 0) == [] && LE(1, 4) == [4] && LE(2, 0x403) == [3, 4] && LE(3, 0x4_0302) == [2, 3, 4];
  }

  lemma IntegerRecord(w: nat, strings: seq<Name>)
    requires w < 256
    ensures TypeBytes(IntegerType(w), strings) == [2, w, 0, 0, 0]
  {
    Small(w);
  }

  lemma PointerExample(strings: seq<Name>)
    ensures TypeBytes(PointerType(IntegerType(32), 7), strings) == [4, 2, 32, 0, 0, 0, 7, 0, 0, 0]
  {
    IntegerRecord(32, strings);
    Small(7);
    var t := PointerType(IntegerType(32), 7);
    assert TypeBytes(t, strings) == [4] + TypeBytes(t.pointee, strings) + LE(4, t.addressSpace);
    hide *;
  }

  lemma ArrayExample(strings: seq<Name>)
    ensures TypeBytes(ArrayType(3, VoidType), strings) == [5, 3, 0, 0, 0, 0, 0, 0, 0, 0]
  {
    Small(3);
    var t := ArrayType(3, VoidType);
    assert TypeBytes(t, strings) == [5] + LE(8, t.count) + TypeBytes(VoidType, strings);
    assert TypeBytes(VoidType, strings) == [0];
    hide *;
  }

  lemma VectorExample(strings: seq<Name>)
    ensures TypeBytes(VectorType(4, BoolType), strings) == [8, 4, 0, 0, 0, 1]
  {
    Small(4);
    var t := VectorType(4, BoolType);
    assert TypeBytes(t, strings) == [8] + LE(4, t.lanes) + TypeBytes(BoolType, strings);
    assert TypeBytes(BoolType, strings) == [1];
    hide *;
  }

  lemma FunctionExample(strings: seq<Name>)
    ensures TypeBytes(FunctionType(VoidType, [BoolType], true), strings) == [7, 0, 1, 1, 0, 0, 0, 1]
  {
    Small(1);
    OneType(BoolType, strings);
    var t := FunctionType(VoidType, [BoolType], true);
    assert TypeBytes(t, strings) == [7] + [0] + [1] + LE(4, 1) + TypesBytes([BoolType], strings);
    assert TypeBytes(BoolType, strings) == [1];
    hide *;
  }

  lemma OneType(t: IRType, strings: seq<Name>)
    ensures TypesBytes([t], strings) == TypeBytes(t, strings)
  {
    hide TypeBytes;
    assert [t][1..] == [];
  }

  lemma OneRef(s: Name)
    requires |s| < 256
    ensures RefOf([s], s) == Ref(8, |s|)
  {
    hide Pow256;
    assert 8 % Pow256(4) == 8 && |s| % Pow256(4) == |s| by { Widths(); }
    assert EntriesSize([s], 0) == 0;
  }

  /** The text of the first string stands behind the count and its own length. */
  lemma NameExample()
    ensures NameBytes([[97, 98]], [97, 98]) == [8, 0, 0, 0, 2, 0, 0, 0]
  {
    OneRef([97, 98]);
    Small(2);
    Small(8);
    assert [97, 98] in [[97, 98]];
    hide LE, RefOf;
    assert NameBytes([[97, 98]], [97, 98]) == LE(4, 8) + LE(4, 2);
    hide *;
  }

  lemma StructExample()
    ensures TypeBytes(StructType([97, 98], [VoidType], true), [[97, 98]])
            == [6] + [8, 0, 0, 0, 2, 0, 0, 0] + [1, 0, 0, 0] + [0] + [1]
  {
    NameExample();
    Small(1);
    OneType(VoidType, [[97, 98]]);
    assert TypeBytes(VoidType, [[97, 98]]) == [0];
    hide LE, NameBytes, TypesBytes;
  }

  lemma ConstantExample(strings: seq<Name>)
    ensures OperandsBytes([IntConst(32, 5)], [], strings) == [0] + ([32, 0, 0, 0] + [5, 0, 0, 0, 0, 0, 0, 0])
  {
    Small(32);
    Small(5);
    Widths();
    hide LE, Pow256;
    var os := [IntConst(32, 5)];
    assert os[1..] == [] && OperandsBytes([], [], strings) == [];
    assert PayloadBytes(os[0], [], strings) == [32, 0, 0, 0] + [5, 0, 0, 0, 0, 0, 0, 0];
  }

  /** The names that the reader makes up. */
  lemma InventedNames()
    ensures DEFAULT_OPAQUE == Characters("opaque")
    ensures forall n :: AnonymousName(n) == Characters("__anon_struct_") + Characters(Dec(n))
    ensures forall b :: BlockName([], b) == Characters("bb") + Characters(Dec(b))
  {
    assert '_' as int == 95 && 'a' as int == 97 && 'n' as int == 110 && 'o' as int == 111 && 's' as int == 115;
  }
}
