/** Writing a function body and reading it again, from end to end. */
module BitcodeRoundTrip {
  import opened Wrappers
  import opened Bytes
  import opened LittleEndian
  import opened StringTable
  import opened TypeRecords
  import opened Interning
  import opened FunctionBody
  import opened BodyRoundTrip
  import opened TwoPasses
  import opened KeptBodies
  import opened BitcodeWriter
  import opened BinaryParsing

  lemma {:induction false} SizesFit(bs: seq<Block>)
    requires BlocksFit(bs)
    ensures forall b | 0 <= b < |bs| :: Sizes(bs)[b] < Pow256(4)
    decreases |bs|
  {
    hide InstsFit, Pow256;
    if bs != [] {
      SizesFit(bs[1..]);
      SizesStep(bs);
    }
  }

  /** The context of a reader that has read nothing yet. */
  const EMPTY := Context(map[], 0)

  /** A body and the string table written with it. */
  method WriteBody(bs: seq<Block>) returns (out: seq<Byte>, table: seq<Byte>, strings: seq<Name>)
    ensures BlocksNamed(bs, strings) && out == BlocksBytes(bs, Sizes(bs), strings) && table == TableBytes(strings)
  {
    hide BlocksBytes, BlocksNamed, TableBytes, StringWriter.Valid;
    var sw := new StringWriter();
    out := WriteBlocks([], bs, sw);
    table := sw.WriteTo([]);
    strings := sw.strings;
    assert out == BlocksBytes(bs, Sizes(bs), strings);
  }

  /**
   A body written with a fresh string table and read back with that table comes back as its image, whatever
   follows it in the file, if the table is no longer than its 32-bit offsets can reach. The image is the body
   itself if and only if all its parts are kept and its structs of one name are one struct.
   */
  method WriteThenRead(bs: seq<Block>, behind: seq<Byte>, functions: nat, globals: nat)
      returns (table: seq<Byte>, r: Option<seq<Block>>, left: seq<Byte>)
    requires BlocksFit(bs) && |bs| < Pow256(4)
    ensures |table| < Pow256(4) ==>
      && r == Some(ImageBlocks(bs, 0, 0, Surroundings(table, Sizes(bs), functions, globals), AfterBlocks(bs, EMPTY)))
      && left == behind
    ensures |table| < Pow256(4) ==>
      (r == Some(bs) <==>
       KeptBlocks(bs, 0, Surroundings(table, Sizes(bs), functions, globals)) && OneBody(BodyStructs(bs)))
  {
    hide BlocksBytes, BlocksNamed, BlocksFit, ImageBlocks, AfterBlocks, KeptBlocks, BodyStructs, OneBody, ReadBody;
    hide TableBytes, Sizes;
    ghost var strings;
    var out;
    out, table, strings := WriteBody(bs);
    var parser := new BinaryParser(out + behind, table, EMPTY);
    assert parser.Left() == out + behind;
    r := parser.ReadFunctionBody(|bs|, functions, globals);
    left := parser.Left();
    if |table| < Pow256(4) {
      WrittenBodyIsRead(bs, strings, behind, functions, globals);
    }
  }

  lemma WrittenBodyIsRead(bs: seq<Block>, strings: seq<Name>, behind: seq<Byte>, functions: nat, globals: nat)
    requires BlocksFit(bs) && BlocksNamed(bs, strings) && |bs| < Pow256(4) && |TableBytes(strings)| < Pow256(4)
    ensures var table := TableBytes(strings);
      var e := Surroundings(table, Sizes(bs), functions, globals);
      var r := ReadBody(|bs|, BlocksBytes(bs, Sizes(bs), strings) + behind, table, functions, globals, EMPTY);
      && r.Got? && r.rest == behind && r.value.0 == ImageBlocks(bs, 0, 0, e, AfterBlocks(bs, EMPTY))
      && (r.value.0 == bs <==> KeptBlocks(bs, 0, e) && OneBody(BodyStructs(bs)))
  {
    hide BlocksBytes, BlocksNamed, BlocksFit, ImageBlocks, AfterBlocks, KeptBlocks, BodyStructs, OneBody, ReadBody;
    hide TableBytes;
    var table := TableBytes(strings);
    SizesFit(bs);
    BodyComesBack(bs, strings, table, behind, functions, globals, EMPTY);
    FreshBodyIsSelfIff(bs, Surroundings(table, Sizes(bs), functions, globals));
  }

  lemma FreshBodyIsSelfIff(bs: seq<Block>, e: Surroundings)
    ensures ImageBlocks(bs, 0, 0, e, AfterBlocks(bs, EMPTY)) == bs <==> KeptBlocks(bs, 0, e) && OneBody(BodyStructs(bs))
  {
    hide Proper, Known, ImageBlocks, AfterBlocks, KeptBlocks, BodyStructs, OneBody;
    NewContextIsProper(0);
    assert BodyStructs(bs) + Known(EMPTY) == BodyStructs(bs);
    BodyIsSelfIff(bs, e, EMPTY);
  }
}
