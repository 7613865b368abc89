/** A call with four arguments, one of them a sum of constants: folding leaves the call with an operand that is gone. */
module LostUses {
  import opened Wrappers
  import opened Sequences
  import opened UseLists
  import opened FoldArithmetic
  import opened FoldingSemantics
  import opened SafeFolding
  import opened FoldingProgress
  import opened FoldingLimits
  import opened ConstantFolding

  const CALL := Op.Other(112)
  const RET := Op.Other(0)

  // Ids of the values of the program, in the order in which they are made.
  const ONE: Id := 0
  const SUM: Id := 1
  const CALLEE: Id := 2
  const A: Id := 3
  const RESULT: Id := 4
  const END: Id := 5

  const VALUES := map[
    ONE := ConstantInt(32, 1), SUM := Instruction(Op.Add, 32), CALLEE := Plain(64), A := Plain(32),
    RESULT := Instruction(CALL, 32), END := Instruction(RET, 0)]

  const OPERANDS := map[SUM := [ONE, ONE], RESULT := [CALLEE, SUM, A, A, A], END := [RESULT]]

  const LISTS := map[
    ONE := [Use(SUM, 0, 4), Use(SUM, 1, 4)], SUM := [Use(RESULT, 1, 4)], CALLEE := [Use(RESULT, 0, 4)],
    A := [Use(RESULT, 2, 4), Use(RESULT, 3, 4), Use(RESULT, 4, 8)], RESULT := [Use(END, 0, 4)], END := []]

  /** return f(1 + 1, a, a, a) */
  const CALLING := Program(Graph(VALUES, OPERANDS, LISTS), [[SUM, RESULT, END]])

  // ---- Building it ----

  method BuildCall() returns (m: IRModule)
    ensures fresh(m) && m.Valid() && Remembered(m.State()) && ProgramOf(m) == CALLING
  {
    hide m.Valid, Remembered;
    m := new IRModule();
    BuildValues(m);
    BuildSum(m);
    BuildReturn(m);
    BuildArguments(m);
    var b := m.AddBlock();
    PlaceAll(m);
  }

  method PlaceAll(m: IRModule)
    requires m.Valid() && m.blocks == [[]] && m.operands.Keys == OPERANDS.Keys
    modifies m`blocks
    ensures m.Valid() && m.blocks == [[SUM, RESULT, END]]
  {
    hide m.Valid;
    m.PushBack(0, SUM);
    m.PushBack(0, RESULT);
    m.PushBack(0, END);
    assert m.blocks[0] == [SUM, RESULT, END];
  }

  method BuildValues(m: IRModule)
    requires m.Valid() && Remembered(m.State()) && m.State() == Graph(map[], map[], map[]) && m.next == 0
    modifies m
    ensures m.Valid() && Remembered(m.State()) && m.blocks == old(m.blocks) && m.values == VALUES
    ensures m.operands == map[SUM := [], RESULT := [], END := []]
    ensures m.lists == map[ONE := [], SUM := [], CALLEE := [], A := [], RESULT := [], END := []]
  {
    hide m.Valid, Remembered;
    var one := m.NewValue(ConstantInt(32, 1));
    var sum := m.NewValue(Instruction(Op.Add, 32));
    var callee := m.NewValue(Plain(64));
    var a := m.NewValue(Plain(32));
    var call := m.NewValue(Instruction(CALL, 32));
    var ret := m.NewValue(Instruction(RET, 0));
  }

  method BuildSum(m: IRModule)
    requires m.Valid() && Remembered(m.State()) && m.values == VALUES
    requires m.operands == map[SUM := [], RESULT := [], END := []]
    requires m.lists == map[ONE := [], SUM := [], CALLEE := [], A := [], RESULT := [], END := []]
    modifies m`operands, m`lists
    ensures m.Valid() && Remembered(m.State())
    ensures m.operands == OPERANDS[RESULT := []][END := []]
    ensures m.lists == LISTS[SUM := []][CALLEE := []][A := []][RESULT := []]
  {
    hide m.Valid, Remembered;
    assert Room(1) == 4 && Room(2) == 4;
    m.AddOperand(SUM, ONE);
    assert m.operands[SUM] == [ONE] && m.lists[ONE] == [Use(SUM, 0, 4)];
    m.AddOperand(SUM, ONE);
    assert m.operands[SUM] == [ONE, ONE] && m.lists[ONE] == [Use(SUM, 0, 4), Use(SUM, 1, 4)];
  }

  method BuildReturn(m: IRModule)
    requires m.Valid() && Remembered(m.State()) && m.values == VALUES
    requires m.operands == OPERANDS[RESULT := []][END := []]
    requires m.lists == LISTS[SUM := []][CALLEE := []][A := []][RESULT := []]
    modifies m`operands, m`lists
    ensures m.Valid() && Remembered(m.State())
    ensures m.operands == OPERANDS[RESULT := []] && m.lists == LISTS[SUM := []][CALLEE := []][A := []]
  {
    hide m.Valid, Remembered;
    assert Room(1) == 4;
    m.AddOperand(END, RESULT);
    assert m.operands[END] == [RESULT] && m.lists[RESULT] == [Use(END, 0, 4)];
  }

  method BuildArguments(m: IRModule)
    requires m.Valid() && Remembered(m.State()) && m.values == VALUES
    requires m.operands == OPERANDS[RESULT := []] && m.lists == LISTS[SUM := []][CALLEE := []][A := []]
    modifies m`operands, m`lists
    ensures m.Valid() && Remembered(m.State()) && m.operands == OPERANDS && m.lists == LISTS
  {
    hide m.Valid, Remembered;
    assert Room(1) == 4 && Room(2) == 4 && Room(3) == 4;
    m.AddOperand(RESULT, CALLEE);
    assert m.operands[RESULT] == [CALLEE] && m.lists[CALLEE] == [Use(RESULT, 0, 4)];
    m.AddOperand(RESULT, SUM);
    assert m.operands[RESULT] == [CALLEE, SUM] && m.lists[SUM] == [Use(RESULT, 1, 4)];
    m.AddOperand(RESULT, A);
    assert m.operands[RESULT] == [CALLEE, SUM, A] && m.lists[A] == [Use(RESULT, 2, 4)];
    BuildLastArguments(m);
  }

  /** The last argument moves all operands to a larger buffer. */
  method BuildLastArguments(m: IRModule)
    requires m.Valid() && Remembered(m.State()) && m.values == VALUES
    requires m.operands == OPERANDS[RESULT := [CALLEE, SUM, A]] && m.lists == LISTS[A := [Use(RESULT, 2, 4)]]
    modifies m`operands, m`lists
    ensures m.Valid() && Remembered(m.State()) && m.operands == OPERANDS && m.lists == LISTS
  {
    hide m.Valid, Remembered;
    assert Room(4) == 4;
    assert Room(5) == 8 by { RoomGrows(4); }
    m.AddOperand(RESULT, A);
    assert m.operands[RESULT] == [CALLEE, SUM, A, A];
    assert m.lists[A] == [Use(RESULT, 2, 4), Use(RESULT, 3, 4)];
    m.AddOperand(RESULT, A);
    assert m.operands[RESULT] == [CALLEE, SUM, A, A, A];
    assert m.lists[A] == [Use(RESULT, 2, 4), Use(RESULT, 3, 4), Use(RESULT, 4, 8)];
  }

  // ---- What goes wrong ----

  /** The sum can be folded, and it does not know that the call uses it. */
  lemma SumIsLost()
    ensures Foldable(CALLING.g, SUM) && Lost(CALLING.g, RESULT, 1) && !Few(CALLING.g)
  {
    var g := CALLING.g;
    assert Room(5) == 8 by { RoomGrows(4); }
    assert Slot(g, RESULT, 1) == Use(RESULT, 1, 8) && g.operands[RESULT][1] == SUM && |g.operands[RESULT]| == 5;
    assert g.lists[SUM] == [Use(RESULT, 1, 4)];
  }

  lemma CallLoses()
    ensures !LosesNothing(CALLING.g) && Keyed(CALLING.g)
  {
    SumIsLost();
    var g := CALLING.g;
    hide Lost;
    assert g.operands[RESULT][1] == SUM;
    if NeverFolds(g, SUM) {
      var stay :| Stays(g, stay) && SUM in stay;
      StayingIsNotFoldable(g, stay, SUM);
    }
  }

  /** What is left when the sum is gone. */
  predicate Broken(now: Program) {
    && SUM !in now.g.values && now.blocks == [[RESULT, END]]
    && RESULT in now.g.operands && |now.g.operands[RESULT]| == 5 && now.g.operands[RESULT][1] == SUM
    && RESULT in now.g.values && now.g.values[RESULT] == Instruction(CALL, 32)
  }

  lemma CallIsLeft(n: Id, now: Program, i: Id)
    requires Since(CALLING, n, now) && i in {RESULT, END}
    ensures i in now.g.operands && i in now.g.values && now.g.values[i] == VALUES[i]
  {
    hide Lost, Refines, FoldsSafely, Remembered, Matched;
    assert StaysAt(CALLING.g, {i}, i);
    assert Stays(CALLING.g, {i}) && Stays(now.g, {i});
    assert StaysAt(now.g, {i}, i);
  }

  lemma SumIsGone(n: Id, now: Program)
    requires Since(CALLING, n, now) && ClearedUpTo(CALLING, now.blocks, |now.blocks|)
    ensures SUM !in now.g.operands && SUM !in now.g.values && |now.blocks| == 1
  {
    hide Lost, Refines, FoldsSafely, Remembered, Matched, SlotsTraced, Stays;
    SumIsLost();
    OnlyHas(CALLING.blocks[0], now.g.operands.Keys, SUM);
    assert Cleared(CALLING, now.blocks, 0);
    assert CALLING.blocks[0] == [SUM, RESULT, END];
  }

  lemma CallIsBroken(n: Id, now: Program)
    requires Since(CALLING, n, now) && ClearedUpTo(CALLING, now.blocks, |now.blocks|)
    ensures Broken(now)
  {
    SumIsGone(n, now);
    CallIsLeft(n, now, RESULT);
    CallIsLeft(n, now, END);
    OnlyTwoLeft(now.g.operands.Keys);
    SumIsLost();
    hide Lost, Refines, FoldsSafely, Remembered, Matched, Stays;
    assert SlotsTraced(CALLING.g, now.g, RESULT) && SlotTraced(CALLING.g, now.g, RESULT, 1);
  }

  lemma OnlyTwoLeft(keys: set<Id>)
    requires SUM !in keys && RESULT in keys && END in keys
    ensures Only([SUM, RESULT, END], keys) == [RESULT, END]
  {
    assert [SUM, RESULT, END][1..] == [RESULT, END] && [RESULT, END][1..] == [END] && [END][1..] == [];
    assert Only([END], keys) == [END] && Only([RESULT, END], keys) == [RESULT] + [END];
  }

  /** A world that looks at all operands and ends at the first branch. */
  const ALL := World(_ => 0, (_, _, _) => true, _ => 0, _ => None)

  lemma {:induction false} AllKnown(w: World, g: Graph, env: map<Id, int>, look: nat -> bool, vs: seq<Id>, k: nat)
    requires forall v <- vs :: Operand(w, g, env, v).Some?
    ensures Operands(w, g, env, look, vs, k).Some?
  {
    if vs != [] {
      AllKnown(w, g, env, look, vs[1..], k + 1);
    }
  }

  lemma {:induction false} OneUnknown(w: World, g: Graph, env: map<Id, int>, look: nat -> bool, vs: seq<Id>, k: nat,
                                      j: nat)
    requires j < |vs| && Operand(w, g, env, vs[j]).None? && look(k + j)
    ensures Operands(w, g, env, look, vs, k).None?
    decreases j
  {
    if j > 0 {
      assert vs[j] == vs[1..][j - 1];
      OneUnknown(w, g, env, look, vs[1..], k + 1, j - 1);
    }
  }

  lemma RunsOn(w: World, g: Graph, m: Machine, i: Id)
    requires i in g.operands && i in g.values && g.values[i].Instruction? && g.values[i].op != PHI
    requires forall v <- g.operands[i] :: Operand(w, g, m.env, v).Some?
    ensures Execute(w, g, map[], m, i).Some?
    ensures Execute(w, g, map[], m, i).value.env.Keys == m.env.Keys + {i}
  {
    var look := Look(w, g.values[i], m.trace, i, |g.operands[i]|);
    AllKnown(w, g, m.env, look, g.operands[i], 0);
    hide Operands, Operand, Look, Apply;
  }

  /** An instruction of the program runs once the instructions that it uses have run. */
  lemma CallRunsOn(m: Machine, i: Id)
    requires i in OPERANDS && (i == RESULT ==> SUM in m.env) && (i == END ==> RESULT in m.env)
    ensures Execute(ALL, CALLING.g, map[], m, i).Some?
    ensures Execute(ALL, CALLING.g, map[], m, i).value.env.Keys == m.env.Keys + {i}
  {
    forall v | v in CALLING.g.operands[i] ensures Operand(ALL, CALLING.g, m.env, v).Some? {
    }
    RunsOn(ALL, CALLING.g, m, i);
  }

  lemma CallRuns()
    ensures Run(ALL, CALLING, START, 0, 1).Done?
  {
    hide Execute;
    var g := CALLING.g;
    CallRunsOn(START, SUM);
    var m := Execute(ALL, g, map[], START, SUM).value;
    CallRunsOn(m, RESULT);
    var n := Execute(ALL, g, map[], m, RESULT).value;
    CallRunsOn(n, END);
    assert ExecuteBlock(ALL, g, map[], n, [END]).Some?;
    BlockStarts(g, m, RESULT, [END]);
    BlockStarts(g, START, SUM, [RESULT, END]);
    assert [SUM] + ([RESULT] + [END]) == CALLING.blocks[0];
    RunFirst(ALL, CALLING, START, 0, 1);
  }

  lemma BlockStarts(g: Graph, m: Machine, i: Id, rest: seq<Id>)
    requires Execute(ALL, g, map[], m, i).Some? && i in g.values && g.values[i].Instruction?
             && !IsTerminator(g.values[i].op)
    requires ExecuteBlock(ALL, g, map[], Execute(ALL, g, map[], m, i).value, rest).Some?
    ensures ExecuteBlock(ALL, g, map[], m, [i] + rest).Some?
  {
    hide Execute;
    assert ([i] + rest)[1..] == rest;
  }

  lemma CallStops(now: Program)
    requires Broken(now)
    ensures Run(ALL, now, START, 0, 1).Stuck?
  {
    var v, vs := now.g.values[RESULT], now.g.operands[RESULT];
    OneUnknown(ALL, now.g, map[], Look(ALL, v, [], RESULT, |vs|), vs, 0, 1);
    assert Execute(ALL, now.g, map[], START, RESULT).None?;
    hide Execute;
    assert ExecuteBlock(ALL, now.g, map[], START, now.blocks[0]).None?;
  }

  lemma CallBreaks(now: Program)
    requires Broken(now)
    ensures !Refines(CALLING, now)
  {
    CallRuns();
    CallStops(now);
    hide Run;
    assert !SameOutcome(now.g.operands.Keys, Run(ALL, CALLING, START, 0, 1), Run(ALL, now, START, 0, 1));
  }

  /** For return f(1 + 1, a, a, a) the pass destroys the sum while the call still points to it, and what ran before
    * the pass does not run after it. */
  method FoldCall() returns (m: IRModule)
    ensures fresh(m) && m.Valid()
    ensures RESULT in m.operands && |m.operands[RESULT]| == 5 && m.operands[RESULT][1] == SUM && SUM !in m.values
    ensures !Refines(CALLING, ProgramOf(m))
  {
    m := BuildCall();
    ghost var n := m.next;
    hide m.Valid, FoldsSafely, Refines, Since, ClearedUpTo, Remembered;
    var changed := RunPass(m);
    assert Since(CALLING, n, ProgramOf(m));
    CallIsBroken(n, ProgramOf(m));
    CallBreaks(ProgramOf(m));
  }
}
