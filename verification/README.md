# Verified models of BlockType's algorithmic cores

BlockType is a C++ compiler. This project models the parts of it whose correctness is an algorithmic question, in Dafny, and
proves what they are for. Code that works by changing state is modelled by methods and classes with loops and fields; each
such method is proved against a specification function or a predicate, and the theorems are about those.

`dafny verify dfyconfig.toml` checks everything.

## Files

| files | what they model |
|---|---|
| `Statements`, `Cfg`, `Lowering`, `Simulation`, `WellFormed`, `Orderly`, `LoweringCorrect`, `Emitter`, `BlockLayout` | lowering of structured statements to basic blocks |
| `GraphTheory`, `DepthFirst`, `DependencyGraph`, `DiagnosticCrossRef` | dependency graph and diagnostic links: search, reachability, cycles |
| `DeltaDebug` | minimising a failing input |
| `LittleEndian`, `StringTable`, `TypeRecords`, `Interning`, `FunctionBody`, `BodyRoundTrip`, `KeptBodies`, `TwoPasses`, `BitcodeWriter`, `BinaryParser`, `BitcodeRoundTrip`, `BitcodeFormat` | the binary IR format, written and read back |
| `UseLists`, `FoldArithmetic`, `FoldingSemantics`, `SafeFolding`, `FoldingProgress`, `FoldingLimits`, `ConstantFolding`, `LostUses` | use lists and constant folding |
| `Utf8`, `Utf8Grammar`, `Transcoding`, `FileEncoding` | UTF-8 validation and coding, UTF-16 and UTF-32 conversion, byte order marks |
| `Numerals`, `MangledNames`, `Substitutions`, `Mangler`, `Demangler` | name mangling of free functions |
| `TypeLayout`, `StructType` | sizes, alignments and field offsets |
| `CodePointRanges`, `EventStream`, `LineIndex` | character property tables, server-sent events, line and column lookup |
| `Wrappers`, `Sequences`, `Bytes`, `Powers` | shared by the others |

## How things are modelled

* **Lowering.** An expression is an opaque action that yields an i1, a wider integer or nothing. The state of a program is the
  history of its actions and an oracle says what value each action produces, so the theorems hold for every behaviour of
  expressions. Statements have a big-step meaning with fuel for loop iterations. Blocks run on a small-step machine that leaves
  a block at its first terminator. A condition that yields no value is treated as the emitter treats it: an `if` skips both
  branches, a loop condition counts as false in `while` and `do` and as true in `for`.
* **Graphs.** Queries and diagnostics are numbers; maps and lists are fields that the methods update.
* **Bitcode.** Bytes are numbers below 256. The reader is specified on what is left of its input. A result operand is identified
  by the position of its instruction in layout order, a block by its position in the function. The reader interns structs by
  name in a context that grows while it reads, and the image of a type or body says what comes out of that.
* **Folding.** Objects are named by numbers and a pointer is such a number. An operand slot has an address: instruction, index
  and the room of the buffer it is in. A use list holds addresses, so it can name a place where a slot was before its buffer
  grew, or a slot of a destroyed instruction, as it does in the repository. Everything that is not integer arithmetic belongs
  to an arbitrary outside world that sees all events and decides which operands are looked at, results and branches. So a phi
  may look at the operand of one edge only, and runs before the other has a value. It sees the values at block entry. An
  operand that points nowhere has no value, so an instruction that looks at one does not run.
* **Text.** Masks and shifts are written as remainders, quotients and sums.

## Where the code and its own descriptions differ

* `include/blocktype/Frontend/IREmitStmt.h:35` promises exactly one terminator in every block. `ExactlyOneTerminatorIff`
  gives the exact condition: no `if` whose condition yields no value, and behind a jump only statements without terminators,
  such as expressions and declarations. The verifier also wants the terminator last, which holds iff a jump has nothing behind
  it at all (`VerifierAcceptsIffNoDeadCode`); `DeadExpressionSeparates` has the function on which the two differ.
* `include/blocktype/IR/DiagnosticCrossRef.h:40` says depth at most `MaxChainDepth`; links are followed from diagnostics at
  depth strictly below it (`src/IR/DiagnosticCrossRef.cpp:52`). The model follows the code.
* `src/IR/DependencyGraph.cpp:174` speaks of a breadth-first search; the work list is used as a stack.
* Little-endian UTF-16 text that starts with U+0000 is taken for UTF-32 (`src/Basic/FileManager.cpp:102-107`);
  `MarkedTextIsConverted` shows that this is the only text that is not converted.
* A use list is meant to name exactly the slots that point to its value. Slots are kept in a vector with room for four
  (`include/blocktype/IR/IRValue.h:222`); a fifth operand moves them all, and the lists keep the old addresses. The lists are
  right iff no instruction has more than four operands (`AgreesIffFew`).
* So `replaceAllUsesWith` misses uses, and folding the sum in a call `f(1 + 1, a, a, a)` destroys it while the call still
  points to it (`FoldCall`). After folding to the end no operand points nowhere iff no slot that was lost like that points to
  an instruction that can ever be folded (`EndDanglesIff`, `RunToFixpoint`). Where arithmetic is at most 64 bits wide, exactly
  that is also `FoldsSafely` (`SafeIff`), under which the pass keeps every run; instructions with up to four operands meet it
  (`FewFoldsSafely`).
* Folding at widths above 64 bits is exact only if the true result fits into 64 bits (`FoldingIsExact`, `FoldsRightIff`).
  `FoldsSafely` asks that of the wide results that can ever be folded, and of no others.
* The 80-bit float has an alignment that is no power of two, and masking does not align it (`AlignsIffPower`,
  `ExtendedFloatIsMisaligned`).
* A struct keeps the field offsets of the first target it was asked about (`GetFieldOffset`). They are right for every struct
  body iff the pointers of the target are as wide as those of the first (`KeptOffsetsAreRightIff`); `AskTwice` shows the code
  give a wrong one. For given fields, `KeptAreRightIff` and `PackedAreRightIff` say when they are right.
* Giving a struct another body does not clear the offsets kept by structs that have it for a field
  (`include/blocktype/IR/IRType.h:159-164`). They stay right iff that field and the one behind it do not move
  (`OtherBodyIsRightIff`); in `AskAround` they do, and offset and size contradict each other.
* Reading a type back does not always give the type written. It does iff no part of it is a bool, a packed or unnamed struct
  or an unnamed opaque type, and no two structs, the ones already known to the reader included, share a name
  (`TypeComesBackIff`; `BodyIsSelfIff` and `WriteThenRead` for bodies).
* Numbers from 0x110000 up are encoded in four bytes although `src/Basic/Unicode.cpp:59-74` is for code points;
  `FourBytesWellFormedIff` says which of them come out as valid UTF-8.
* In files of four gigabytes and more, line starts wrap at 32 bits, and lines are right for every offset iff the last line starts
  below that (`GetLineAndColumn`, for as many lines as 32 bits can number).

## Model

| member | source | states |
|---|---|---|
| LoweringCorrect.SimulateCall | src/Frontend/ASTToIRConverter.cpp:131-167 | for any fuel, the emitted blocks reach the same completion as the source function, or have performed the same actions after at least as many steps |
| LoweringCorrect.LoweringPreservesMeaning | src/Frontend/IREmitStmt.cpp:136-319 | a function finishes with given actions and result under the source semantics iff its blocks do, for every oracle |
| LoweringCorrect.LoweringPreservesDivergence | src/Frontend/IREmitStmt.cpp:172-297 | it runs forever in the one iff in the other, with every finite history of the source performed by the blocks |
| LoweringCorrect.NeverStuck | src/Frontend/ASTToIRConverter.cpp:157-167 | control never runs off the end of a block or to a missing one |
| LoweringCorrect.EveryBlockClosed | src/Frontend/IREmitStmt.cpp:68-73 | break and continue stacks are restored; each block has a terminator or was left empty by a failed if |
| LoweringCorrect.EveryBlockTerminated | src/Frontend/IREmitStmt.cpp:136-170 | every block has a terminator iff no if has a condition without a value |
| LoweringCorrect.ExactlyOneTerminatorIff | include/blocktype/Frontend/IREmitStmt.h:35 | every block has exactly one terminator iff no if has a condition without a value and no statement behind a jump emits another terminator |
| LoweringCorrect.VerifierAcceptsIffNoDeadCode | src/IR/IRVerifier.cpp:184-213 | the block verifier accepts all blocks iff nothing at all stands behind a jump |
| LoweringCorrect.DeadExpressionSeparates | src/Frontend/IREmitStmt.cpp:415-421 | an expression behind a return: one terminator, but not last, so the verifier rejects the block |
| Simulation.Simulate | src/Frontend/IREmitStmt.cpp:79-130 | the blocks emitted for any statement, placed in any larger function, simulate it |
| Simulation.SimulateIf | src/Frontend/IREmitStmt.cpp:136-170 | the same for if, both arms and the failed condition |
| Simulation.SimulateWhileLoop | src/Frontend/IREmitStmt.cpp:228-263 | the same for the iterations of while, break and continue included |
| Simulation.SimulateDoLoop | src/Frontend/IREmitStmt.cpp:265-300 | the same for do |
| Simulation.SimulateForLoop | src/Frontend/IREmitStmt.cpp:172-226 | the same for for, whose continue goes to the increment |
| Simulation.SimulateReturn | src/Frontend/IREmitStmt.cpp:302-319 | a return hands back the value of its expression, nothing, or the placeholder |
| WellFormed.EmitCloses | src/Frontend/IREmitStmt.cpp:68-73 | emitting a statement terminates every block it leaves |
| WellFormed.FailedIfLeavesGap | src/Frontend/IREmitStmt.cpp:136-170 | a failed if leaves an empty block behind |
| Orderly.EmitNeat | src/Frontend/IREmitStmt.cpp:79-130 | emitting a statement keeps terminators single (or single and last) iff no dead part of it emits a terminator (or anything) |
| Cfg.GetTerminator | src/IR/IRBasicBlock.cpp:11-17 | finds the first terminator, or none if there is none |
| Cfg.VerifyBasicBlock | src/IR/IRVerifier.cpp:184-213 | accepts a block iff it is empty or has one terminator, last |
| Emitter.StmtEmitter.Emit | src/Frontend/IREmitStmt.cpp:79-130 | the emitter object ends in exactly the state of the lowering that the theorems are about |
| Emitter.StmtEmitter.EmitCondition | src/Frontend/IREmitStmt.cpp:52-66 | evaluates and compares with zero where the value is wider than a bit |
| Emitter.StmtEmitter.EmitBranchIfNotTerminated | src/Frontend/IREmitStmt.cpp:68-73 | branches only from an open block |
| Emitter.StmtEmitter.EmitIfStmt | src/Frontend/IREmitStmt.cpp:136-170 | blocks and insert point of if |
| Emitter.StmtEmitter.EmitForStmt | src/Frontend/IREmitStmt.cpp:172-226 | blocks, targets and insert point of for |
| Emitter.StmtEmitter.EmitWhileStmt | src/Frontend/IREmitStmt.cpp:228-263 | blocks, targets and insert point of while |
| Emitter.StmtEmitter.EmitDoStmt | src/Frontend/IREmitStmt.cpp:265-300 | blocks, targets and insert point of do |
| Emitter.StmtEmitter.EmitReturnStmt | src/Frontend/IREmitStmt.cpp:302-319 | the three forms of return |
| Emitter.StmtEmitter.EmitCompoundStmt | src/Frontend/IREmitStmt.cpp:415-421 | statements in order, dead ones too |
| Emitter.StmtEmitter.EmitDeclStmt | src/Frontend/IREmitStmt.cpp:427-453 | appends, for each variable in order, one Alloca, then the Eval of its initialiser iff it has one, then a Store iff that has a value, and nothing else |
| Emitter.StmtEmitter.EmitParams | src/Frontend/ASTToIRConverter.cpp:134-148 | appends, for each parameter in order, an Alloca and a Store, and nothing else |
| Statements.DeclActionsAre | src/Frontend/IREmitStmt.cpp:427-453 | the same of what a declaration does |
| Statements.ParamActionsAre | src/Frontend/ASTToIRConverter.cpp:134-148 | the same of what passing parameters does |
| BlockLayout.IfBlocks | src/Frontend/IREmitStmt.cpp:136-170 | then, else and end blocks are numbered in this order; the block before ends in the test and its branch; emission goes on at the end |
| BlockLayout.WhileBlocks | src/Frontend/IREmitStmt.cpp:228-263 | condition, body and end, with what is in the block before and in the condition block |
| BlockLayout.DoBlocks | src/Frontend/IREmitStmt.cpp:265-300 | body, condition and end, with the same |
| BlockLayout.ForBlocks | src/Frontend/IREmitStmt.cpp:172-226 | condition, body, increment and end, with what is in the condition and increment blocks |
| Emitter.StmtEmitter.EmitFunctionBody | src/Frontend/ASTToIRConverter.cpp:126-167 | parameters, body and the final return |
| GraphTheory.Search | src/IR/DependencyGraph.cpp:200-249 | one root of the three-colour search: finds a cycle, or leaves no grey node and extends the topological rank of the black ones |
| GraphTheory.GreyClosesCycle | src/IR/DependencyGraph.cpp:218-240 | an edge to a grey node closes a cycle, because the grey nodes are the stack path |
| GraphTheory.RankedAcyclic | src/IR/DependencyGraph.cpp:200-249 | nodes listed after all their successors lie on no cycle |
| GraphTheory.MirrorReaches | src/IR/DependencyGraph.cpp:90-132 | in mirrored maps, reachability is reversed |
| Dependencies.DependencyGraph.RecordDependency | src/IR/DependencyGraph.cpp:90-132 | adds exactly the edges given, new ones to the ends of lists in order, and keeps the two maps mirrored, with equal keys and no duplicates |
| Dependencies.RecordedEdges | src/IR/DependencyGraph.cpp:97-105 | afterwards an edge exists iff it did before or was given |
| Dependencies.RecordedConsistent | src/IR/DependencyGraph.cpp:97-131 | the mirror invariant survives recording |
| Dependencies.DependencyGraph.GetTransitiveDependents | src/IR/DependencyGraph.cpp:170-198 | exactly the nodes from which the given one is reached over one or more edges, each once, depth first from the last recorded one |
| DepthFirst.StackStep | src/IR/DependencyGraph.cpp:180-195 | taking a node off the stack and putting its unvisited successors on it goes on in the depth-first order |
| DepthFirst.PreorderOfTwo | src/IR/DependencyGraph.cpp:180-195 | what stands further up the stack is visited with all that is below it before the rest |
| Dependencies.WithAllNewIs | src/IR/DependencyGraph.cpp:97-109 | a list goes on with what is new to it, in order |
| Dependencies.DependencyGraph.HasCycle | src/IR/DependencyGraph.cpp:200-249 | true iff the recorded edges have a cycle |
| CrossRef.DiagnosticCrossRef.RegisterDiag | src/IR/DiagnosticCrossRef.cpp:9-16 | registers each diagnostic once |
| CrossRef.DiagnosticCrossRef.AddLink | src/IR/DiagnosticCrossRef.cpp:18-30 | appends the link; both ends are registered |
| CrossRef.DiagnosticCrossRef.GetChain | src/IR/DiagnosticCrossRef.cpp:32-69 | each link whose source is nearer than the limit, once, none other, by ascending distance of the source; links of one source in the order of being added, sources in the order in which the chain reaches them |
| CrossRef.DiagnosticCrossRef.FollowLinks | src/IR/DiagnosticCrossRef.cpp:32-69 | the same for any depth limit |
| CrossRef.DiagnosticCrossRef.Expand | src/IR/DiagnosticCrossRef.cpp:55-65 | the links of one source in order, and their targets not visited yet in the order of the links |
| CrossRef.GatheredOrdered | src/IR/DiagnosticCrossRef.cpp:48-66 | the order of a gathered chain |
| CrossRef.GatheredIsChain | src/IR/DiagnosticCrossRef.cpp:48-66 | what a finished search has gathered is that chain |
| CrossRef.FoundWithin | src/IR/DiagnosticCrossRef.cpp:60-64 | the search finds everything within the limit, at no more than its distance |
| CrossRef.LinkCycles | src/IR/DiagnosticCrossRef.cpp:71-88 | the adjacency map has a cycle iff the links do |
| CrossRef.DiagnosticCrossRef.HasCycle | src/IR/DiagnosticCrossRef.cpp:71-133 | true iff the links have a cycle |
| DeltaDebug.Minimise | src/IR/IRFuzzer.cpp:12-48 | ends where the rounds lead that start with two chunks: with a subsequence that still fails, not empty unless the input was, 1-minimal or of length at most 1, within 3n(n+1)/2 oracle calls |
| DeltaDebug.TryChunks | src/IR/IRFuzzer.cpp:20-39 | removes the first chunk that can go and no other, or shows that none can |
| DeltaDebug.ChunksPartition | src/IR/IRFuzzer.cpp:20-26 | the chunks cover the input one behind the other, all but the last of the largest equal size |
| DeltaDebug.SingleChunks | src/IR/IRFuzzer.cpp:41-44 | when chunks are single bytes and none can go, the input is 1-minimal |
| DeltaDebug.SuccessfulRound | src/IR/IRFuzzer.cpp:34-38 | a successful round pays for its calls out of the bound by the bytes it removes |
| LittleEndian.RoundTripLE | src/IR/IRSerializer.cpp:444-474 | a number is recovered from its bytes, lowest first |
| LittleEndian.ByteValues | src/IR/IRSerializer.cpp:459-468 | what each of two or four bytes counts |
| StringTable.StringWriter.AddInternal | src/IR/IRSerializer.cpp:486-492 | keeps offsets, index and running size in step with the table's bytes |
| StringTable.StringWriter.Add | src/IR/IRSerializer.cpp:494-499 | adds a string only if it is new |
| StringTable.StringWriter.GetRef | src/IR/IRSerializer.cpp:502-505 | returns the place of the string in the table |
| StringTable.StringWriter.WriteTo | src/IR/IRSerializer.cpp:506-512 | writes the table |
| StringTable.CountInFront | src/IR/IRSerializer.cpp:506-507 | the table starts with the number of strings |
| StringTable.LengthInFront | src/IR/IRSerializer.cpp:508-511 | each entry is its length and its bytes |
| StringTable.RefStable | src/IR/IRSerializer.cpp:502-505 | later additions do not move a string |
| StringTable.ReadsUpTo | src/IR/IRSerializer.cpp:1650-1657 | from any eight bytes: the text if it lies in the table, nothing if it does not, and past the table's end if the sum of offset and length wraps |
| StringTable.ReadBack | src/IR/IRSerializer.cpp:1650-1657 | every reference reads its string back from the final table |
| TypeRecords.TypeRoundTrip | src/IR/IRSerializer.cpp:519-576 | reading the record of any registered type, in any context, consumes exactly its bytes and gives the type with its structs interned |
| Interning.InternedIsSelfIff | src/IR/IRTypeContext.cpp:48-65 | interning gives the type itself iff no part of it is lost and no two structs, known ones included, share a name |
| Interning.TypeComesBackIff | src/IR/IRSerializer.cpp:1659-1711 | a written type is read back as it was iff that holds |
| Interning.ReadTypeSettles | src/IR/IRSerializer.cpp:1659-1711 | whatever the bytes, a type read has only named, unpacked structs, all registered under their names, and the context stays consistent |
| FunctionBody.FlatLocate | src/IR/IRSerializer.cpp:1967-1979 | block and index of an instruction give its position in layout order |
| BodyRoundTrip.BlocksRoundTrip | src/IR/IRSerializer.cpp:1890-2008 | the parse pass turns written blocks into their image, in any context, and stops at their last byte |
| TwoPasses.PassesAgree | src/IR/IRSerializer.cpp:1853-1898 | on any bytes whatever, the skip pass and the parse pass end at the same byte and agree on block sizes |
| TwoPasses.BodyComesBack | src/IR/IRSerializer.cpp:1853-2009 | both passes over any written body give its image in the context after the first pass and leave the rest |
| KeptBodies.BodyIsSelfIff | src/IR/IRSerializer.cpp:1853-2009 | the image is the body itself iff blocks are named, types lose nothing, constants fit into 64 bits and their width, null and undefined constants have the instruction's type, results are of earlier instructions, and structs of one name are one struct |
| BitcodeWriter.WriteTypeRecord | src/IR/IRSerializer.cpp:519-576 | appends the record of the type and registers its names |
| BitcodeWriter.FindInst | src/IR/IRSerializer.cpp:775-790 | finds block and index of an instruction |
| BitcodeWriter.WriteOperand | src/IR/IRSerializer.cpp:725-810 | appends one operand |
| BitcodeWriter.WriteBlocks | src/IR/IRSerializer.cpp:703-813 | appends the blocks of a function body |
| BinaryParsing.BinaryParser.ReadTypeRecord | src/IR/IRSerializer.cpp:1659-1711 | the moving reader reads what the specification reads |
| BinaryParsing.BinaryParser.SkipAllBlocks | src/IR/IRSerializer.cpp:1853-1888 | the first pass |
| BinaryParsing.BinaryParser.FlatIndex | src/IR/IRSerializer.cpp:1970-1973 | the position in layout order |
| BinaryParsing.BinaryParser.ParseAllBlocks | src/IR/IRSerializer.cpp:1890-2008 | the second pass |
| BinaryParsing.BinaryParser.ReadFunctionBody | src/IR/IRSerializer.cpp:1853-2009 | both passes |
| BitcodeRoundTrip.WriteThenRead | src/IR/IRSerializer.cpp:703-814 | a body written and then read comes back as its image, which is the body itself iff that holds, and what follows it is untouched |
| BitcodeFormat.HeaderBytes | src/IR/IRSerializer.cpp:710-719 | the first four bytes of an instruction: opcode, dialect, and the predicate iff the opcode is 96 or 97 |
| BitcodeFormat.HeaderRead | src/IR/IRSerializer.cpp:1899-2003 | from any bytes, an instruction read has the predicate byte iff its opcode is 96 or 97 |
| BitcodeFormat.PredicateComesBackIff | include/blocktype/IR/IRValue.h:31-47 | a predicate comes back as it was iff it was zero or the opcode is 96 or 97 |
| BitcodeFormat.TypeKinds | include/blocktype/IR/IRType.h:28-32 | the kind byte of each type |
| BitcodeFormat.OperandKinds | include/blocktype/IR/IRValue.h:16-29 | the kind byte of each operand |
| BitcodeFormat.PointerExample | src/IR/IRSerializer.cpp:532-537 | the bytes of a pointer to a 32-bit integer in address space 7 |
| BitcodeFormat.StructExample | src/IR/IRSerializer.cpp:544-554 | the bytes of a packed struct |
| BitcodeFormat.InventedNames | src/IR/IRTypeContext.cpp:60-64 | the names that the reader makes up |
| UseLists.IRModule.AddOperand | src/IR/IRValue.cpp:10-12 | the new slot enters the list of its value under the address it has then; if it takes a larger buffer, the other slots move there and the lists do not follow |
| UseLists.IRModule.SetOperand | src/IR/IRValue.cpp:14-19 | the slot's present address leaves the list of the old value, if it is there, and goes to the end of the list of the new one; nothing else changes |
| UseLists.IRModule.RemoveUse | src/IR/IRValue.cpp:29-32 | the first entry goes |
| UseLists.IRModule.ReplaceAllUsesWith | src/IR/IRValue.cpp:21-27 | exactly the slots whose present address is in the list point to the new value or to null, and the whole list goes over, old addresses included |
| UseLists.ReplacedIsLinked | src/IR/IRValue.cpp:21-27 | replacing keeps what every operation keeps: a list that has a slot is that of the value it points to, a slot that never moved is listed, no address is listed twice |
| UseLists.DestroyedIsLinked | src/IR/IRBasicBlock.cpp:72-82 | so does destroying any instruction, whatever uses it or it uses |
| UseLists.RoomGrows | include/blocktype/IR/ADT/SmallVector.h:38-48 | a slot more takes a buffer of twice the room iff the old one is full |
| UseLists.LostIsUnlisted | src/IR/IRValue.cpp:10-19 | a slot that its value does not list is listed nowhere |
| UseLists.AgreesIffFew | include/blocktype/IR/IRValue.h:217-231 | as long as no use has been forgotten, the lists agree with the operands iff no instruction has more than four |
| UseLists.IRModule.PushBack | src/IR/IRBasicBlock.cpp:41-46 | the instruction becomes the last of the block |
| UseLists.IRModule.Insert | src/IR/IRBasicBlock.cpp:55-70 | it follows the given instruction, or is last if that is not in the block |
| UseLists.IRModule.Erase | src/IR/IRBasicBlock.cpp:72-82 | exactly that instruction leaves its block, whatever uses it still has, and the answer says whether it was there |
| UseLists.IRModule.Destroy | src/IR/IRPasses.cpp:68-74 | an erased instruction disappears with its slots and its list; what pointed to it points nowhere |
| FoldArithmetic.FoldingIsExact | src/IR/IRPasses.cpp:104-119 | 64-bit folding equals arithmetic modulo 2 to the width iff the width is at most 64 or the result fits a word |
| FoldArithmetic.FoldedIs | src/IR/IRPasses.cpp:104-119 | sum, difference or product by the opcode, modulo 2 to the 64 and then to the width |
| FoldArithmetic.NarrowIs | src/IR/IRPasses.cpp:104-119 | up to 64 bits, sum, difference or product modulo 2 to the width |
| FoldArithmetic.FoldingIsInexactAt128 | src/IR/IRPasses.cpp:104-119 | a 128-bit sum that is folded wrongly |
| FoldingSemantics.FoldRefines | src/IR/IRPasses.cpp:68-74 | folding one instruction whose constant is its result preserves every defined run, phi instructions in loops included: events, control flow and surviving values |
| FoldingSemantics.FoldsRightIff | src/IR/IRPasses.cpp:98-119 | the constant is the result iff the width is at most 64 or the true result fits a word |
| FoldingSemantics.TerminatorsAre | src/IR/IRInstruction.cpp:47-60 | the opcodes that end a block |
| FoldingSemantics.SeesEntryIff | include/blocktype/IR/IRValue.h:42 | an instruction sees its operand as it was on entry to its block iff its opcode is 128 |
| FoldingSemantics.PhiNeedsOneEdge | src/IR/IRVerifier.cpp:602-607 | a phi runs on the way into a loop, before the value of the edge back exists |
| FoldingProgress.StepMatched | src/IR/IRVerifier.cpp:330-347 | a step of the pass keeps the verifier's rule for integer arithmetic |
| SafeFolding.StepIsFold | src/IR/IRPasses.cpp:68-74 | a step of the pass is a full replacement if no use of the instruction is lost |
| SafeFolding.StepRefines | src/IR/IRPasses.cpp:68-74 | if what can ever be folded works out and no lost use points to it, a step preserves every defined run, and that still holds afterwards |
| FoldingProgress.StepIsProgress | src/IR/IRPasses.cpp:60-74 | what a step keeps of everything promised for the pass |
| FoldingProgress.DanglesIff | src/IR/IRValue.cpp:21-27 | an operand has come to point nowhere iff it pointed to an instruction that is gone and had lost it |
| FoldingLimits.SafeIff | src/IR/IRPasses.cpp:52-80 | where arithmetic is narrow, folding is safe iff no lost use points to what can ever be folded |
| FoldingLimits.FewFoldsSafely | src/IR/IRPasses.cpp:52-80 | narrow, well-typed programs with at most four operands each fold safely |
| FoldingLimits.EndKeeps | src/IR/IRPasses.cpp:52-80 | when nothing can be folded any more, exactly the instructions are left that depend on something other than constants |
| FoldingLimits.EndDanglesIff | src/IR/IRPasses.cpp:52-80 | and no operand points nowhere iff no lost use pointed to one of the others |
| ConstantFolding.TryFold | src/IR/IRPasses.cpp:82-121 | a constant iff the instruction is an Add, Sub or Mul of two constants of one width, and then their sum, difference or product |
| ConstantFolding.FoldOne | src/IR/IRPasses.cpp:68-74 | erases iff foldable; every use that is known points to the constant, and no other operand changes |
| ConstantFolding.Collect | src/IR/IRPasses.cpp:60-66 | the foldable instructions of a block, in order |
| ConstantFolding.RunPass | src/IR/IRPasses.cpp:52-80 | removes everything foldable at the start, true iff something was removed; says what becomes of every value and operand; refines the program if folding it is safe |
| ConstantFolding.RunToFixpoint | src/IR/IRPasses.cpp:52-80 | repeating the pass ends, with exactly the instructions left that never fold; no operand points nowhere iff no lost use pointed to the others; refines the program if folding it is safe |
| LostUses.BuildCall | src/IR/IRBuilder.cpp:328-335 | builds a call with four arguments, one of them a sum of constants |
| LostUses.FoldCall | src/IR/IRPasses.cpp:52-80 | the pass destroys the sum while the call points to it, and does not refine that program |
| Utf8.EncodingIsShaped | src/Basic/Unicode.cpp:59-74 | an encoding has lead byte, continuation bytes and payload of its code point |
| Utf8.ShapedIsEncoding | src/Basic/UTF8Validator.cpp:47-92 | bytes that pass the validator's tests are the encoding of their payload |
| Utf8.EncodeIsPrefixFree | src/Basic/Unicode.cpp:59-74 | no encoding begins another |
| Utf8.SequenceLength | src/Basic/UTF8Validator.cpp:45-91 | one step of validation: a length iff an encoding of a scalar value starts here |
| Utf8.ValidateScalar | src/Basic/UTF8Validator.cpp:40-95 | accepts exactly the concatenations of encodings of scalar values |
| Utf8.FindInvalidScalar | src/Basic/UTF8Validator.cpp:97-152 | the end of the longest well-formed prefix, which is the end iff all is well-formed |
| Utf8.DecodeUtf8 | src/Basic/Unicode.cpp:46-57 | decodes as specified from any position of any bytes |
| Utf8.EncodeUtf8 | src/Basic/Unicode.cpp:59-74 | appends the encoding of a code point, and the low bits of any larger number in four bytes |
| Utf8.FourBytesWellFormedIff | src/Basic/Unicode.cpp:68-72 | what is written for a larger number is valid UTF-8 iff its low 22 bits are a code point of four bytes |
| Utf8.DecodedFits | src/Basic/Unicode.cpp:52-55 | no bit is lost in 32 |
| Utf8.DecodesEncoded | src/Basic/Unicode.cpp:46-74 | repeated decoding gives back any code points encoded |
| Utf8.ReencodingReproduces | src/Basic/Unicode.cpp:46-74 | decoding to scalar values and encoding reproduces a buffer iff the validator accepts it |
| Utf8Grammar.CharIff | src/Basic/UTF8Validator.cpp:45-91 | the encodings of scalar values are the characters of the grammar in section 4 of RFC 3629 |
| Utf8Grammar.OctetsIff | src/Basic/UTF8Validator.cpp:40-95 | what is accepted is a sequence of them |
| Utf8Grammar.LeadBits | src/Basic/Unicode.cpp:38-44 | the lengths that leading bits announce, for the validator and for the codec |
| Utf8Grammar.DecodedBits | src/Basic/Unicode.cpp:46-57 | what is decoded from any bytes, bit by bit |
| Utf8Grammar.KnownEncodings | src/Basic/Unicode.cpp:59-74 | the examples in section 7 of RFC 3629 |
| Transcoding.ConvertUtf16ToUtf8 | src/Basic/FileManager.cpp:138-202 | converts the whole units behind the mark |
| Transcoding.ConvertUtf32ToUtf8 | src/Basic/FileManager.cpp:204-261 | converts the whole words behind the mark, dropping numbers that are no code points |
| Transcoding.TranscodesUnits | src/Basic/FileManager.cpp:152-199 | UTF-16 of scalar values becomes their UTF-8 |
| Transcoding.PairIs | src/Basic/FileManager.cpp:176-178 | a surrogate pair stands for ten bits of each half above 0x10000 |
| Transcoding.KnownUnits | src/Basic/FileManager.cpp:152-178 | the example in section 2.1 of RFC 2781 |
| Transcoding.ReadsWire16 | src/Basic/FileManager.cpp:153-161 | units are read back in either byte order |
| Transcoding.ReadsWire32 | src/Basic/FileManager.cpp:228-240 | words are read back in either byte order |
| Transcoding.WellFormedIffPaired | src/Basic/FileManager.cpp:163-198 | on any units, the output is valid iff no surrogate is unpaired, a high one at the very end aside |
| Transcoding.WellFormedIffNoSurrogate | src/Basic/FileManager.cpp:227-258 | on any words, the output is valid iff there is no surrogate |
| FileEncoding.ConvertToUtf8 | src/Basic/FileManager.cpp:263-304 | dispatches on the detected encoding |
| FileEncoding.MarkedTextIsConverted | src/Basic/FileManager.cpp:88-123 | text behind a mark becomes its UTF-8 in all five encodings, iff it is not little-endian UTF-16 starting with U+0000 |
| FileEncoding.PlainUtf8IsKept | src/Basic/FileManager.cpp:271-281 | UTF-8 passes through, less one mark |
| FileEncoding.ConvertsUnmarked16 | src/Basic/FileManager.cpp:138-202 | UTF-16 without a mark is converted from its first character on |
| FileEncoding.ConvertsUnmarked32 | src/Basic/FileManager.cpp:204-261 | UTF-32 without a mark likewise |
| Numerals.DecIsPrefixFree | src/Frontend/IRMangler.cpp:587-591 | a number is recovered from what follows it not starting with a digit |
| Numerals.NumeralValue | include/blocktype/Frontend/IRMangler.h:75-93 | a numeral has digits of its base, no leading zero, and the value of its number |
| Numerals.OnlyNumeral | include/blocktype/Frontend/IRMangler.h:75-93 | it is the only one |
| MangledNames.CodesArePrefixFree | src/Frontend/IRMangler.cpp:245-277 | no builtin code begins another |
| MangledNames.TypesArePrefixFree | src/Frontend/IRMangler.cpp:279-325 | no mangled type begins another, through pointers, references, arrays and function types |
| MangledNames.QualsArePrefixFree | src/Frontend/IRMangler.cpp:400-433 | the same with const and volatile |
| MangledNames.ParamsAreInjective | src/Frontend/IRMangler.cpp:515-524 | parameter lists are recovered, an empty one counting as one void |
| MangledNames.NestedNamesArePrefixFree | src/Frontend/IRMangler.cpp:90-104 | a nested name splits in one way |
| MangledNames.MangledFunctionIsInjective | src/Frontend/IRMangler.cpp:68-112 | two names are equal iff namespaces, name and parameter types are |
| Substitutions.Encode | include/blocktype/Frontend/IRMangler.h:75-93 | the abbreviation of an entity |
| Substitutions.CodeIs | include/blocktype/Frontend/IRMangler.h:75-93 | an abbreviation is S, the index less one in base 36 unless it is the first, and an underscore |
| Substitutions.CodeIsInjective | include/blocktype/Frontend/IRMangler.h:75-93 | abbreviations of different entities differ |
| Mangler.IRMangler.TrySubstitution | include/blocktype/Frontend/IRMangler.h:94-100 | the abbreviation of the first entry for the entity, if any |
| Mangler.IRMangler.MangleQualType | src/Frontend/IRMangler.cpp:400-433 | appends the mangled type |
| Mangler.IRMangler.MangleFunctionParamTypes | src/Frontend/IRMangler.cpp:515-524 | appends the parameter types |
| Mangler.IRMangler.MangleNamespaces | src/Frontend/IRMangler.cpp:92-102 | appends the namespaces outermost first; none is abbreviated, since each is met once |
| Mangler.IRMangler.MangleFunctionName | src/Frontend/IRMangler.cpp:68-112 | the mangled name of a free function |
| Mangler.SymbolsAreUnique | src/Frontend/IRMangler.cpp:68-112 | two declared functions share a symbol iff they agree in named namespaces, name and parameter types |
| Demangler.NamesReadBack | src/Frontend/IRMangler.cpp:68-112 | a reader of mangled names gets back the namespaces, the name and the parameter types of every function |
| Demangler.TypeIsRead | src/Frontend/IRMangler.cpp:245-325 | and every type, whatever follows it |
| Demangler.KnownNames | tests/unit/Frontend/IRManglerTest.cpp:155-173 | the names of three functions |
| TypeLayout.RoundsUp | src/IR/IRType.cpp:8-10 | masking rounds up to the next multiple of a power of two |
| TypeLayout.AlignsIffPower | src/IR/IRType.cpp:8-10 | it does so for every value iff the alignment is a power of two |
| TypeLayout.PlainIsRegular | src/IR/IRType.cpp:21-84 | alignments are powers of two and divide sizes |
| TypeLayout.ArrayGrows | src/IR/IRType.cpp:78-80 | an array or vector takes nothing without elements, and the size of an element more for one more |
| TypeLayout.ArrayLeaves | src/IR/IRType.cpp:78-80 | the scalars of an array are one element size apart, from its start to its end |
| TypeLayout.ScalarLayout | src/IR/IRType.cpp:21-66 | sizes and alignments of scalars; an integer is aligned as the smaller of it and a pointer |
| TypeLayout.CompoundAlign | src/IR/IRType.cpp:82-157 | alignments of arrays, vectors and packed structs |
| TypeLayout.StructAlign | src/IR/IRType.cpp:149-157 | other structs are aligned to the largest field alignment, at least a byte |
| TypeLayout.PlainLayoutIsTight | src/IR/IRType.cpp:129-157 | each field at the least aligned place behind the one before, the size the least multiple of the alignment behind the last |
| TypeLayout.LeavesAreWellPlaced | src/IR/IRType.cpp:78-157 | in an aligned value every scalar at any depth is aligned, inside, and disjoint from the others |
| TypeLayout.ExtendedFloatIsMisaligned | src/IR/IRType.cpp:43-45 | an 80-bit float behind a byte is put at bit 16 |
| StructTypes.IRStructType.GetFieldOffset | src/IR/IRType.cpp:86-105 | the offset for the target and the fields at the first question since the body was set |
| StructTypes.KeptOffsetsAreRightIff | src/IR/IRType.cpp:86-105 | offsets kept for one target are those of another for every struct body iff pointers are equally wide |
| StructTypes.AskTwice | src/IR/IRType.cpp:86-105 | asked about a byte packed behind a pointer for a second target, an object answers with the pointer size of the first |
| StructTypes.KeptAreRightIff | src/IR/IRType.cpp:86-105 | for any fields and targets, kept offsets are right iff each follows the one before as the other target and fields put it |
| StructTypes.PackedAreRightIff | src/IR/IRType.cpp:86-105 | in packed structs, iff all fields but the last have equal sizes |
| StructTypes.SmallIntegersAreRight | src/IR/IRType.cpp:86-105 | another target makes no difference to integers that fit into both pointers |
| StructTypes.OtherBodyIsRightIff | include/blocktype/IR/IRType.h:159-164 | when a field gets another body, kept offsets stay right iff that field and the next do not move |
| StructTypes.AskAround | include/blocktype/IR/IRType.h:159-164 | after that, an object answers with the old offset and the new size |
| StructTypes.IRStructType.GetSizeInBits | src/IR/IRType.cpp:129-147 | the size, by the same steps as the offsets |
| StructTypes.IRStructType.GetAlignInBits | src/IR/IRType.cpp:149-157 | the alignment |
| CodePointRanges.MergeRanges | scripts/generate_unicode_data.py:88-106 | the same union, in normal form |
| CodePointRanges.NormalIsCanonical | scripts/generate_unicode_data.py:88-106 | equal unions have equal normal forms |
| CodePointRanges.MergeTwice | scripts/generate_unicode_data.py:88-106 | tables are equal iff the properties are |
| CodePointRanges.LowerBound | scripts/generate_unicode_data.py:152-159 | the first range not ending before the code point |
| CodePointRanges.IsIdStart | scripts/generate_unicode_data.py:144-162 | below 0x80 true exactly for the letters and the underscore, by number; above, iff the table covers the code point |
| CodePointRanges.HasProperty | scripts/generate_unicode_data.py:88-162 | above ASCII, true iff the original ranges cover it |
| EventStream.ParseLineCarries | src/AI/HTTPClient.cpp:240-266 | a line carries data iff they start somewhere behind data: and its blanks and are not the end mark; they are the rest of the line from there |
| EventStream.LinesOfTwo | src/AI/HTTPClient.cpp:26-53 | the lines of a stream cut in two |
| EventStream.LinesPartition | src/AI/HTTPClient.cpp:33-37 | lines and rest are the stream, and contain no further newline |
| EventStream.SSEContext.WriteCallback | src/AI/HTTPClient.cpp:26-53 | after any chunk the state is that of the whole stream so far |
| EventStream.Receive | src/AI/HTTPClient.cpp:26-53 | calls, body and rest do not depend on the chunks |
| LineIndex.FileInfo.constructor | src/Basic/SourceManager.cpp:23-33 | the table of line starts, as 32-bit numbers |
| LineIndex.StartsOfPrefix | src/Basic/SourceManager.cpp:35-49 | the starts up to an offset are those of the text before it |
| LineIndex.FileInfo.GetLineAndColumn | src/Basic/SourceManager.cpp:35-55 | line by newlines before, column from the last one, if the last line starts below four gigabytes, and only then for all offsets; always back to the offset |

## Left out

- Emit: switch, goto and label statements: their blocks are not filled in or become unreachable.
- Stray break and continue: outside loops the emitter ignores them; the meaning of such programs is not defined here. `Emitter` models what is emitted.
- EmitCondition: the width of the zero compared with, which is always 32 bits.
- VerifyBasicBlock: the check of the parent, the order of phi instructions and the checks of each instruction.
- Expressions: how they are emitted, pointer and float conditions, and conditions whose value is an integer that is not 32 bits wide compared with a 32-bit zero.
- Function bodies that are not compound statements, and functions emitted while another one is.
- GetChain, HasCycle: diagnostics are compared by number; the repository compares addresses.
- DependencyGraph: fingerprints, file change tracking and printing.
- WriteThenRead: module header, globals, declarations, linkage, attributes and integrity data around the bodies; string tables of four gigabytes and more.
- WriteThenRead: a function or global operand is a position; that the positions of writer and reader name the same function is not modelled.
- WriteThenRead: reading past the end of the data is undefined in the repository; the model reports it as a short read.
- BlocksRoundTrip: a float constant beyond its bit pattern.
- TypeRoundTrip: struct types made cyclic by giving them a body later, whose record the writer never finishes.
- IRModule: writing to the old address of a slot changes no operand. That is so while the old buffer is the one inside the object; after a ninth operand, or the destruction of the instruction, the memory has been freed, and writing there is undefined in the repository. A freed buffer's address is not given out again.
- TryFold: arithmetic on a null or destroyed operand, which is undefined in the repository, is not folded.
- ReplaceAllUsesWith: replacing a value by itself, which changes the list while it is gone through.
- RunPass: blocks of all functions are one list; functions without blocks have none in it. Dead function elimination and dialect lowering.
- APInt: values of constants are numbers; its multiword operations.
- UTF8Validator: the SSE2 and NEON paths, which do not make the scalar path's checks.
- Unicode: normalisation and identifier classes other than the range test.
- MangleFunctionName: constructors, destructors, methods, records, enums, typedefs, templates, member pointers, vendor types and variable-length arrays (which are mangled like arrays of unknown bound), and abbreviations of types. Array bounds are those whose top bit is clear, which print as decimal numbers.
- IRStructType: fields are values, and `FieldChanges` stands for another body of a struct that is a field; void, function and opaque fields; packed structs beyond their definition.
- Size: 64-bit overflow of sizes and offsets.
- MergeRanges: parsing the data files, and the other generated tables, which are looked up in the same way. `Sorted` stands for the library's sort.
- WriteCallback: the transfer itself, its errors and the final callback.
- GetLineAndColumn: more lines than 32 bits can number, where only the way back to the offset is stated.
- IR text format, other passes, code emission, linking, AI providers, diagnostics output: not modelled.
