/** The main results about the lowering of a whole function. */
module LoweringCorrect {
  import opened Wrappers
  import opened Statements
  import opened Cfg
  import opened Lowering
  import opened Simulation
  import opened WellFormed
  import opened Orderly

  predicate ScopedBody(f: Function) {
    forall i | 0 <= i < |f.body| :: Scoped(f.body[i], false)
  }

  function Start(): Config {
    At(0, 0, [], 0)
  }

  /** The emitted function after k machine steps. */
  function Compiled(f: Function, val: Oracle, k: nat): Config {
    Run(EmitFunction(f).blocks, val, Start(), k)
  }

  lemma SimulateCall(f: Function, val: Oracle, fuel: nat) returns (k: nat)
    requires ScopedBody(f)
    ensures var c := Compiled(f, val, k);
      match Call(f, val, fuel)
      case Finished(h, r) => c == Halted(h, r)
      case Running(h) => c.At? && c.h == h && k >= fuel
  {
    hide Extends, Emit, Exec, Step;
    var F := EmitFunction(f).blocks;
    var st0 := State([[]], 0, [], []);
    var acts := ParamActions(f.params);
    var st1 := Push(st0, ActCode(acts));
    var st2 := EmitAll(f.body, st1);
    FunctionLayout(f, F);
    var last1 := SimulateActs(st0, acts, F, val, [], 0);
    assert [] + acts == acts;
    var k1 := SimulateAll(f.body, st1, F, val, acts, last1, fuel);
    RunTrans(F, val, Start(), |acts|, k1);
    k := |acts| + k1;
    var o := ExecAll(f.body, val, acts, fuel);
    if o.Normal? {
      RunFinalReturn(f, val, o.h, Run(F, val, Start(), k).last);
      RunTrans(F, val, Start(), k, 1);
      k := k + 1;
    }
  }

  lemma FunctionLayout(f: Function, F: seq<Block>)
    requires F == EmitFunction(f).blocks
    ensures var st1 := Push(State([[]], 0, [], []), ActCode(ParamActions(f.params)));
      Extends(st1.blocks, F) && Extends(EmitAll(f.body, st1).blocks, F)
  {
    var st1 := Push(State([[]], 0, [], []), ActCode(ParamActions(f.params)));
    ExtendsTrans(st1.blocks, EmitAll(f.body, st1).blocks, F);
  }

  /** The return added behind a body that can fall off its end. */
  lemma RunFinalReturn(f: Function, val: Oracle, h: History, last: int)
    requires var st2 := EmitAll(f.body, Push(State([[]], 0, [], []), ActCode(ParamActions(f.params))));
      !Terminated(st2.blocks[st2.cur])
    ensures var st2 := EmitAll(f.body, Push(State([[]], 0, [], []), ActCode(ParamActions(f.params))));
      Run(EmitFunction(f).blocks, val, Here(st2, h, last), 1) == Halted(h, if f.isVoid then Void else Undef)
  {
    var F := EmitFunction(f).blocks;
    var st2 := EmitAll(f.body, Push(State([[]], 0, [], []), ActCode(ParamActions(f.params))));
    var code := [if f.isVoid then RetVoid else RetUndef];
    PushedCode(st2, code, F);
    CodeElements(F, st2.cur, |st2.blocks[st2.cur]|, code);
    var c := Here(st2, h, last);
    assert F[c.b][c.i] == code[0];
    assert Run(F, val, c, 1) == Step(F, val, c);
  }

  /** A machine that has left the At configurations by step k is in the same configuration ever after. */
  lemma FinalAfter(f: Function, val: Oracle, k: nat, m: nat)
    requires k <= m && !Compiled(f, val, k).At?
    ensures Compiled(f, val, m) == Compiled(f, val, k)
  {
    RunTrans(EmitFunction(f).blocks, val, Start(), k, m - k);
    HaltedStays(EmitFunction(f).blocks, val, Compiled(f, val, k), m - k);
  }

  /**
   The function finishes with actions h and result r under the source semantics if and only if its emitted
   blocks do, whatever values the expressions produce.
   */
  lemma LoweringPreservesMeaning(f: Function, val: Oracle, h: History, r: Returned)
    requires ScopedBody(f)
    ensures (exists fuel: nat :: Call(f, val, fuel) == Finished(h, r))
      <==> (exists k: nat :: Compiled(f, val, k) == Halted(h, r))
  {
    hide Compiled, Call;
    if fuel: nat :| Call(f, val, fuel) == Finished(h, r) {
      var k := SimulateCall(f, val, fuel);
      assert Compiled(f, val, k) == Halted(h, r);
    }
    if k: nat :| Compiled(f, val, k) == Halted(h, r) {
      var m := SimulateCall(f, val, k + 1);
      if m < k { FinalAfter(f, val, m, k); } else { FinalAfter(f, val, k, m); }
      assert Call(f, val, k + 1) == Finished(h, r);
    }
  }

  lemma NeverStuck(f: Function, val: Oracle, k: nat)
    requires ScopedBody(f)
    ensures !Compiled(f, val, k).Stuck?
  {
    hide Compiled, Call;
    var m := SimulateCall(f, val, k + 1);
    if Compiled(f, val, k).Stuck? {
      if m < k { FinalAfter(f, val, m, k); } else { FinalAfter(f, val, k, m); }
    }
  }

  /**
   A call that is still running after any amount of fuel is still running in the blocks, which at some point
   have performed exactly the same actions; and a call runs forever in the one if and only if in the other.
   */
  lemma LoweringPreservesDivergence(f: Function, val: Oracle)
    requires ScopedBody(f)
    ensures forall fuel: nat | Call(f, val, fuel).Running? ::
      exists k: nat :: k >= fuel && Compiled(f, val, k).At? && Compiled(f, val, k).h == Call(f, val, fuel).h
    ensures (forall fuel: nat :: Call(f, val, fuel).Running?) <==> (forall k: nat :: Compiled(f, val, k).At?)
  {
    hide Compiled, Call;
    forall fuel: nat | Call(f, val, fuel).Running?
      ensures exists k: nat :: k >= fuel && Compiled(f, val, k).At? && Compiled(f, val, k).h == Call(f, val, fuel).h
    {
      var k := SimulateCall(f, val, fuel);
    }
    if forall fuel: nat :: Call(f, val, fuel).Running? {
      forall k: nat ensures Compiled(f, val, k).At? {
        var m := SimulateCall(f, val, k);
        assert Call(f, val, k).Running?;
        if !Compiled(f, val, k).At? { FinalAfter(f, val, k, m); }
      }
    }
    if forall k: nat :: Compiled(f, val, k).At? {
      forall fuel: nat ensures Call(f, val, fuel).Running? {
        var m := SimulateCall(f, val, fuel);
        assert Compiled(f, val, m).At?;
      }
    }
  }

  predicate BodyHasFailedIf(f: Function) {
    exists i | 0 <= i < |f.body| :: HasFailedIf(f.body[i])
  }

  predicate AllTerminated(blocks: seq<Block>) {
    forall b | 0 <= b < |blocks| :: Terminated(blocks[b])
  }

  predicate AllAccepted(blocks: seq<Block>) {
    forall b | 0 <= b < |blocks| :: Accepted(blocks[b])
  }

  function AfterParams(f: Function): (st: State)
    ensures Valid(st)
  {
    Push(State([[]], 0, [], []), ActCode(ParamActions(f.params)))
  }

  lemma AfterParamsOpen(f: Function)
    ensures forall last :: AllNeat(AfterParams(f), last)
    ensures !Terminated(AfterParams(f).blocks[0]) && |AfterParams(f).blocks| == 1
  {
    ActCodeOpen(ParamActions(f.params));
    assert AfterParams(f).blocks[0] == ActCode(ParamActions(f.params));
  }

  /** Every block of an emitted function is terminated or was left empty, and the jump-target stacks are restored. */
  lemma EveryBlockClosed(f: Function)
    ensures EmitFunction(f).brk == [] && EmitFunction(f).cont == []
    ensures forall b | 0 <= b < |EmitFunction(f).blocks| :: Closed(EmitFunction(f).blocks[b], BodyHasFailedIf(f))
  {
    hide Emit, EmitAll, HasFailedIf;
    var st1 := AfterParams(f);
    var st2 := EmitAll(f.body, st1);
    EmitAllCloses(f.body, st1, BodyHasFailedIf(f));
    AfterParamsOpen(f);
    if !Terminated(st2.blocks[st2.cur]) {
      PushTerminates(st2, [if f.isVoid then RetVoid else RetUndef]);
    }
  }

  /** Every block has a terminator if and only if no condition of an if failed to produce a value. */
  lemma EveryBlockTerminated(f: Function)
    ensures AllTerminated(EmitFunction(f).blocks) <==> !BodyHasFailedIf(f)
  {
    EveryBlockClosed(f);
    if BodyHasFailedIf(f) {
      var b := FailedIfLeavesGapAll(f.body, AfterParams(f));
      EmptyOpen();
      assert EmitFunction(f).blocks[b] == [];
    }
  }

  /** Whether the emitted blocks are neat depends on the dead code of the body alone. */
  lemma FunctionIsNeat(f: Function, last: bool)
    requires ScopedBody(f)
    ensures AllNeat(EmitFunction(f), last) == NoDeadCodeAll(f.body, false, last)
  {
    hide Emit, EmitAll;
    var st1 := AfterParams(f);
    var st2 := EmitAll(f.body, st1);
    AfterParamsOpen(f);
    EmitAllNeat(f.body, st1, last);
    if !Terminated(st2.blocks[st2.cur]) {
      PushNeat(st2, [if f.isVoid then RetVoid else RetUndef], last);
    }
  }

  /** The verifier accepts every emitted block if and only if nothing at all is emitted behind a jump. */
  lemma VerifierAcceptsIffNoDeadCode(f: Function)
    requires ScopedBody(f)
    ensures AllAccepted(EmitFunction(f).blocks) <==> NoDeadCodeAll(f.body, false, true)
  {
    var F := EmitFunction(f);
    FunctionIsNeat(f, true);
    EveryBlockClosed(f);
    forall b | 0 <= b < |F.blocks| ensures Accepted(F.blocks[b]) == Neat(F.blocks[b], true) {
      assert Closed(F.blocks[b], BodyHasFailedIf(f));
    }
  }

  predicate OneTerminator(b: Block) {
    exists i | 0 <= i < |b| :: IsTerminator(b[i]) && forall j | 0 <= j < |b| :: IsTerminator(b[j]) ==> j == i
  }

  predicate AllOneTerminator(blocks: seq<Block>) {
    forall b | 0 <= b < |blocks| :: OneTerminator(blocks[b])
  }

  lemma OneIsAtMostOneAndSome(b: Block)
    ensures OneTerminator(b) <==> Terminated(b) && AtMostOne(b)
  {
    if Terminated(b) && AtMostOne(b) {
      var i :| 0 <= i < |b| && IsTerminator(b[i]);
      assert forall j | 0 <= j < |b| :: IsTerminator(b[j]) ==> j == i;
    }
  }

  /**
   Every block has exactly one terminator if and only if no condition of an if failed to produce a value and
   no statement behind a jump emits another terminator. Expressions and declarations may follow a jump.
   */
  lemma ExactlyOneTerminatorIff(f: Function)
    requires ScopedBody(f)
    ensures AllOneTerminator(EmitFunction(f).blocks) <==> !BodyHasFailedIf(f) && NoDeadCodeAll(f.body, false, false)
  {
    var F := EmitFunction(f);
    FunctionIsNeat(f, false);
    EveryBlockTerminated(f);
    hide OneTerminator, AtMostOne, Terminated, EmitFunction, NoDeadCodeAll, BodyHasFailedIf;
    forall b | 0 <= b < |F.blocks|
      ensures OneTerminator(F.blocks[b]) <==> Terminated(F.blocks[b]) && Neat(F.blocks[b], false)
    {
      OneIsAtMostOneAndSome(F.blocks[b]);
    }
  }

  /** An expression behind a return. */
  function DeadExpression(e: Expr): Function {
    Function([], [Return(None), ExprStmt(e)], true)
  }

  lemma EmitTwo(s: Stmt, t: Stmt, st: State)
    requires Valid(st)
    ensures EmitAll([s, t], st) == Emit(t, Emit(s, st))
  {
    hide Emit;
    var ss := [s, t];
    assert ss[1..] == [t] && [t][1..] == [];
    assert EmitAll(ss, st) == EmitAll([t], Emit(s, st));
    assert EmitAll([t], Emit(s, st)) == EmitAll([], Emit(t, Emit(s, st)));
  }

  lemma DeadExpressionBlocks(e: Expr)
    ensures EmitFunction(DeadExpression(e)).blocks == [[RetVoid, Act(Eval(e))]]
  {
    hide EmitAll, EmitIf, EmitWhile, EmitDo, EmitFor;
    var st := AfterParams(DeadExpression(e));
    assert st.blocks == [[]] by { assert ActCode(ParamActions([])) == []; }
    EmitTwo(Return(None), ExprStmt(e), st);
    var st1 := Emit(Return(None), st);
    assert st1.blocks[0] == [] + [RetVoid] == [RetVoid];
    var st2 := Emit(ExprStmt(e), st1);
    assert st2.blocks[0] == [RetVoid] + [Act(Eval(e))] == [RetVoid, Act(Eval(e))];
    assert IsTerminator(st2.blocks[0][0]);
  }

  /** Its one terminator is not last, so the two conditions differ and the verifier rejects the block. */
  lemma DeadExpressionSeparates(e: Expr)
    ensures AllOneTerminator(EmitFunction(DeadExpression(e)).blocks)
            && NoDeadCodeAll(DeadExpression(e).body, false, false)
    ensures !AllAccepted(EmitFunction(DeadExpression(e)).blocks) && !NoDeadCodeAll(DeadExpression(e).body, false, true)
  {
    hide EmitFunction, NoDeadCodeAll;
    DeadExpressionBlocks(e);
    var b := [RetVoid, Act(Eval(e))];
    assert IsTerminator(b[0]) && !IsTerminator(b[1]);
    assert EmitFunction(DeadExpression(e)).blocks[0] == b;
    ExactlyOneTerminatorIff(DeadExpression(e));
    VerifierAcceptsIffNoDeadCode(DeadExpression(e));
  }
}
