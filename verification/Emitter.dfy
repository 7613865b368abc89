/**
 The statement emitter, in place: it moves the insertion point, appends to blocks, creates blocks, and pushes
 and pops jump targets. Each method is proved to have the effect that Lowering describes as a function.
 */
module Emitter {
  import opened Wrappers
  import opened Statements
  import opened Cfg
  import opened Lowering

  class StmtEmitter {
    var blocks: seq<Block>
    var cur: nat
    var breakTargets: seq<nat>
    var continueTargets: seq<nat>

    function View(): State
      reads this
    {
      State(blocks, cur, breakTargets, continueTargets)
    }

    /** A fresh function: one entry block, which is the insertion block. */
    constructor ()
      ensures View() == State([[]], 0, [], [])
    {
      blocks, cur, breakTargets, continueTargets := [[]], 0, [], [];
    }

    method CreateBasicBlock() returns (b: nat)
      requires Valid(View())
      modifies this`blocks
      ensures b == old(|blocks|) && View() == AddBlocks(old(View()), 1)
    {
      b := |blocks|;
      blocks := blocks + [[]];
      assert blocks == AddBlocks(old(View()), 1).blocks;
    }

    /** Creates k blocks in a row, as every statement with control flow does first. */
    method CreateBasicBlocks(k: nat) returns (first: nat)
      requires Valid(View())
      modifies this`blocks
      ensures first == old(|blocks|) && View() == AddBlocks(old(View()), k)
    {
      first := |blocks|;
      ghost var st := View();
      AddNoBlocks(st);
      for i := 0 to k
        invariant Valid(View()) && View() == AddBlocks(st, i)
      {
        var _ := CreateBasicBlock();
        AddOneBlock(st, i);
      }
    }

    method Append(i: Instr)
      requires Valid(View())
      modifies this`blocks
      ensures View() == Push(old(View()), [i])
    {
      blocks := blocks[cur := blocks[cur] + [i]];
    }

    method EmitExpr(e: Expr)
      requires Valid(View())
      modifies this`blocks
      ensures View() == Push(old(View()), [Act(Eval(e))])
    {
      Append(Act(Eval(e)));
    }

    /** Emits a condition and says whether a value came out. */
    method EmitCondition(e: Expr) returns (ok: bool)
      requires Valid(View())
      modifies this`blocks
      ensures ok == !e.ty.NoValue? && View() == Push(old(View()), CondCode(e))
    {
      EmitExpr(e);
      ok := !e.ty.NoValue?;
      if e.ty.Wide? {
        Append(ToBool);
        PushPush(old(View()), [Act(Eval(e))], [ToBool]);
      } else {
        assert CondCode(e) == [Act(Eval(e))];
      }
    }

    /** A condition and the branch on it; without a value control goes to failed. */
    method EmitConditionalBranch(e: Expr, t: nat, f: nat, failed: nat)
      requires Valid(View())
      modifies this`blocks
      ensures View() == Push(old(View()), CondCode(e) + [if e.ty.NoValue? then Br(failed) else CondBr(t, f)])
    {
      var ok := EmitCondition(e);
      if ok {
        Append(CondBr(t, f));
      } else {
        Append(Br(failed));
      }
      PushPush(old(View()), CondCode(e), [if e.ty.NoValue? then Br(failed) else CondBr(t, f)]);
    }

    method EmitBranchIfNotTerminated(next: nat)
      requires Valid(View())
      modifies this`blocks
      ensures View() == BranchTo(old(View()), next)
    {
      var terminated, _ := GetTerminator(blocks[cur]);
      if !terminated {
        Append(Br(next));
      }
    }

    method Emit(s: Stmt)
      requires Valid(View())
      modifies this
      ensures View() == Lowering.Emit(s, old(View()))
      decreases s, 4
    {
      hide EmitAll, EmitIf, EmitWhile, EmitDo, EmitFor, ActCode, ReturnCode;
      match s
      case ExprStmt(e) => EmitExpr(e);
      case NullStmt =>
      case DeclStmt(vars) => EmitDeclStmt(vars);
      case Compound(body) => EmitCompoundStmt(body);
      case If(_, _, _) => EmitIfStmt(s);
      case While(_, _) => EmitWhileStmt(s);
      case Do(_, _) => EmitDoStmt(s);
      case For(_, _, _, _) => EmitForStmt(s);
      case Break =>
        if |breakTargets| > 0 {
          Append(Br(breakTargets[|breakTargets| - 1]));
        }
      case Continue =>
        if |continueTargets| > 0 {
          Append(Br(continueTargets[|continueTargets| - 1]));
        }
      case Return(result) => EmitReturnStmt(result);
    }

    method EmitIfStmt(s: Stmt)
      requires s.If? && Valid(View())
      modifies this
      ensures View() == EmitIf(s, old(View()))
      decreases s, 0
    {
      hide EmitArm, Push, AddBlocks, CondCode;
      var thenBB := CreateBasicBlocks(if s.els.Some? then 3 else 2);
      var elseBB := thenBB + 1;
      var endBB := if s.els.Some? then thenBB + 2 else thenBB + 1;
      EmitConditionalBranch(s.cond, thenBB, if s.els.Some? then elseBB else endBB, endBB);
      assert View() == IfHead(s.cond, s.els.Some?, old(View()));
      if !s.cond.ty.NoValue? {
        EmitSide(s.thn, thenBB, endBB);
        if s.els.Some? {
          EmitSide(s.els.value, elseBB, endBB);
        }
      }
      cur := endBB;
    }

    /** One side of an if, in its own block. */
    method EmitSide(s: Stmt, entry: nat, end: nat)
      requires Valid(View()) && entry < |blocks|
      modifies this
      ensures View() == EmitArm(s, entry, end, old(View()))
      decreases s, 5
    {
      cur := entry;
      Emit(s);
      EmitBranchIfNotTerminated(end);
    }

    /** The body of a loop, between the push and the pop of its jump targets. */
    method EmitBody(s: Stmt, entry: nat, brk: nat, cont: nat)
      requires Valid(View()) && entry < |blocks| && brk < |blocks| && cont < |blocks|
      modifies this
      ensures View() == EmitLoopBody(s, entry, brk, cont, old(View()))
      decreases s, 5
    {
      breakTargets := breakTargets + [brk];
      continueTargets := continueTargets + [cont];
      cur := entry;
      Emit(s);
      EmitBranchIfNotTerminated(cont);
      breakTargets := breakTargets[..|breakTargets| - 1];
      continueTargets := continueTargets[..|continueTargets| - 1];
    }

    method EmitWhileStmt(s: Stmt)
      requires s.While? && Valid(View())
      modifies this
      ensures View() == EmitWhile(s, old(View()))
      decreases s, 0
    {
      hide EmitLoopBody, Push, AddBlocks, CondCode;
      var condBB := CreateBasicBlocks(3);
      var bodyBB, endBB := condBB + 1, condBB + 2;
      Append(Br(condBB));
      cur := condBB;
      assert View() == WhileHead(old(View()));
      EmitConditionalBranch(s.cond, bodyBB, endBB, endBB);
      EmitBody(s.loopBody, bodyBB, endBB, condBB);
      cur := endBB;
    }

    method EmitDoStmt(s: Stmt)
      requires s.Do? && Valid(View())
      modifies this
      ensures View() == EmitDo(s, old(View()))
      decreases s, 0
    {
      hide EmitLoopBody, Push, CondCode, AddBlocks;
      var bodyBB := CreateBasicBlocks(3);
      var condBB, endBB := bodyBB + 1, bodyBB + 2;
      Append(Br(bodyBB));
      EmitBody(s.loopBody, bodyBB, endBB, condBB);
      cur := condBB;
      EmitConditionalBranch(s.cond, bodyBB, endBB, endBB);
      cur := endBB;
    }

    method EmitForStmt(s: Stmt)
      requires s.For? && Valid(View())
      modifies this
      ensures View() == EmitFor(s, old(View()))
      decreases s, 3
    {
      hide EmitForLoop, Push;
      var condBB := CreateBasicBlocks(4);
      Emit(s.init);
      Append(Br(condBB));
      EmitForLoopStmt(s, condBB);
    }

    /** The part of a for statement behind its initialisation. */
    method EmitForLoopStmt(s: Stmt, condBB: nat)
      requires s.For? && Valid(View()) && condBB + 4 <= |blocks|
      modifies this
      ensures View() == EmitForLoop(s, condBB, old(View()))
      decreases s, 0
    {
      hide EmitLoopBody, Push, CondCode;
      var bodyBB, incBB, endBB := condBB + 1, condBB + 2, condBB + 3;
      cur := condBB;
      if s.forCond.Some? {
        EmitConditionalBranch(s.forCond.value, bodyBB, endBB, bodyBB);
      } else {
        Append(Br(bodyBB));
      }
      assert View() == Push(old(View()).(cur := condBB), ForCode(s.forCond, condBB));
      EmitBody(s.loopBody, bodyBB, endBB, incBB);
      cur := incBB;
      EmitIncrement(s.inc, condBB);
      cur := endBB;
    }

    method EmitIncrement(inc: Option<Expr>, condBB: nat)
      requires Valid(View())
      modifies this`blocks
      ensures View() == Push(old(View()), IncCode(inc) + [Br(condBB)])
    {
      if inc.Some? {
        EmitExpr(inc.value);
        Append(Br(condBB));
        PushPush(old(View()), IncCode(inc), [Br(condBB)]);
      } else {
        Append(Br(condBB));
        assert IncCode(inc) + [Br(condBB)] == [Br(condBB)];
      }
    }

    method EmitReturnStmt(result: Option<Expr>)
      requires Valid(View())
      modifies this`blocks
      ensures View() == Push(old(View()), ReturnCode(result))
    {
      match result
      case None => Append(RetVoid);
      case Some(e) =>
        EmitExpr(e);
        Append(if e.ty.NoValue? then RetPlaceholder else RetValue);
        PushPush(old(View()), [Act(Eval(e))], [if e.ty.NoValue? then RetPlaceholder else RetValue]);
        assert [Act(Eval(e))] + [if e.ty.NoValue? then RetPlaceholder else RetValue] == ReturnCode(result);
    }

    method EmitCompoundStmt(body: seq<Stmt>)
      requires Valid(View())
      modifies this
      ensures View() == EmitAll(body, old(View()))
      decreases body, 5
    {
      for i := 0 to |body|
        invariant Valid(View())
        invariant EmitAll(body[i..], View()) == EmitAll(body, old(View()))
      {
        assert body[i..][1..] == body[i + 1..];
        Emit(body[i]);
      }
    }

    method AppendAct(ghost st: State, ghost done: seq<Action>, a: Action)
      requires Valid(View()) && Valid(st) && View() == Push(st, ActCode(done))
      modifies this`blocks
      ensures View() == Push(st, ActCode(done + [a]))
    {
      Append(Act(a));
      PushAct(st, done, a);
    }

    /** The stack slot of one variable, and the store of its initial value. */
    method EmitVarInit(v: VarInit, ghost st: State, ghost done: seq<Action>)
      requires Valid(View()) && Valid(st) && View() == Push(st, ActCode(done))
      modifies this`blocks
      ensures View() == Push(st, ActCode(done + VarActions(v)))
    {
      hide Push, ActCode;
      AppendAct(st, done, Alloca(v.variable));
      ghost var done1 := done + [Alloca(v.variable)];
      if v.init.Some? {
        var e := v.init.value;
        AppendAct(st, done1, Eval(e));
        if !e.ty.NoValue? {
          AppendAct(st, done1 + [Eval(e)], Store(v.variable));
        }
      }
      assert VarActions(v) == [Alloca(v.variable)]
        + (if v.init.None? then []
           else [Eval(v.init.value)] + if v.init.value.ty.NoValue? then [] else [Store(v.variable)]);
      assert done + VarActions(v)
        == if v.init.None? then done1
           else if v.init.value.ty.NoValue? then done1 + [Eval(v.init.value)]
           else done1 + [Eval(v.init.value)] + [Store(v.variable)];
    }

    /** Stack slots and initialisers of the declared variables, in order. */
    method EmitDeclStmt(vars: seq<VarInit>)
      requires Valid(View())
      modifies this`blocks
      ensures View() == Push(old(View()), ActCode(DeclActions(vars)))
      ensures |blocks| == |old(blocks)| && Continues(old(blocks[cur]), blocks[cur], Spot(vars, |vars|))
      ensures forall i | 0 <= i < |vars| :: VariableIn(blocks[cur], |old(blocks[cur])|, vars, i)
    {
      hide Push, ActCode, VarActions, Valid;
      ghost var done: seq<Action> := [];
      PushNothing(View());
      assert [] + DeclActions(vars) == DeclActions(vars);
      for i := 0 to |vars|
        invariant Valid(View()) && View() == Push(old(View()), ActCode(done))
        invariant DeclSplit(vars, i, done)
      {
        DeclStep(vars, i, done);
        EmitVarInit(vars[i], old(View()), done);
        done := done + VarActions(vars[i]);
      }
      assert done + [] == done;
      DeclaredCode(old(View()), vars);
    }

    method EmitParams(params: seq<nat>)
      requires Valid(View())
      modifies this`blocks
      ensures View() == Push(old(View()), ActCode(ParamActions(params)))
      ensures |blocks| == |old(blocks)| && Continues(old(blocks[cur]), blocks[cur], 2 * |params|)
      ensures forall i | 0 <= i < |params| :: SpilledIn(blocks[cur], |old(blocks[cur])|, params, i)
    {
      hide Push, ActCode;
      ghost var done: seq<Action> := [];
      PushNothing(View());
      for i := 0 to |params|
        invariant Valid(View()) && View() == Push(old(View()), ActCode(done))
        invariant done + ParamActions(params[i..]) == ParamActions(params)
      {
        assert params[i..][1..] == params[i + 1..];
        AppendAct(old(View()), done, Alloca(params[i]));
        done := done + [Alloca(params[i])];
        AppendAct(old(View()), done, Store(params[i]));
        done := done + [Store(params[i])];
      }
      assert done == ParamActions(params);
      SpilledCode(old(View()), params);
    }

    /** The body of a function: parameter slots, statements, and a final return if control can reach it. */
    method EmitFunctionBody(f: Function)
      requires View() == State([[]], 0, [], [])
      modifies this
      ensures View() == EmitFunction(f)
    {
      EmitParams(f.params);
      EmitCompoundStmt(f.body);
      var terminated, _ := GetTerminator(blocks[cur]);
      if !terminated {
        Append(if f.isVoid then RetVoid else RetUndef);
      }
    }
  }

  /** So many instructions were appended. */
  predicate Continues(b: Block, b': Block, n: nat) {
    |b'| == |b| + n && b'[..|b|] == b
  }

  /** One Alloca, then the initialiser if there is one, then the store of its value if it has one. */
  predicate DeclaredIn(b: Block, at: nat, v: VarInit) {
    && at < |b| && b[at] == Act(Alloca(v.variable))
    && (v.init.Some? ==> at + 1 < |b| && b[at + 1] == Act(Eval(v.init.value)))
    && (v.init.Some? && !v.init.value.ty.NoValue? ==> at + 2 < |b| && b[at + 2] == Act(Store(v.variable)))
  }

  predicate VariableIn(b: Block, from: nat, vars: seq<VarInit>, i: nat)
    requires i < |vars|
  {
    DeclaredIn(b, from + Spot(vars, i), vars[i])
  }

  /** The slot of a parameter and the store of its argument. */
  predicate SpilledIn(b: Block, from: nat, params: seq<nat>, i: nat)
    requires i < |params|
  {
    var at := from + 2 * i;
    at + 1 < |b| && b[at] == Act(Alloca(params[i])) && b[at + 1] == Act(Store(params[i]))
  }

  lemma PushedBlock(st: State, acts: seq<Action>)
    requires Valid(st)
    ensures var b, b' := st.blocks[st.cur], Push(st, ActCode(acts)).blocks[st.cur];
      b' == b + ActCode(acts) && Continues(b, b', |acts|)
  {
  }

  lemma DeclaredCode(st: State, vars: seq<VarInit>)
    requires Valid(st)
    ensures var b, b' := st.blocks[st.cur], Push(st, ActCode(DeclActions(vars))).blocks[st.cur];
      Continues(b, b', Spot(vars, |vars|)) && forall i | 0 <= i < |vars| :: VariableIn(b', |b|, vars, i)
  {
    DeclActionsAre(vars);
    PushedBlock(st, DeclActions(vars));
    hide Push, ActCode, DeclActions, Spot, VariableIn, Continues;
    AllDeclared(st.blocks[st.cur], vars);
  }

  lemma AllDeclared(b: Block, vars: seq<VarInit>)
    ensures forall i | 0 <= i < |vars| :: VariableIn(b + ActCode(DeclActions(vars)), |b|, vars, i)
  {
    DeclActionsAre(vars);
    hide *;
    forall i | 0 <= i < |vars| ensures VariableIn(b + ActCode(DeclActions(vars)), |b|, vars, i) {
      OneDeclared(b, vars, i);
    }
  }

  lemma OneDeclared(b: Block, vars: seq<VarInit>, i: nat)
    requires i < |vars| && HasVariable(DeclActions(vars), vars, i)
    ensures VariableIn(b + ActCode(DeclActions(vars)), |b|, vars, i)
  {
    hide ActCode, DeclActions, Spot;
    DeclaredShift(b, DeclActions(vars), Spot(vars, i), vars[i]);
  }

  lemma DeclaredShift(b: Block, acts: seq<Action>, at: nat, v: VarInit)
    requires DeclaredAt(acts, at, v)
    ensures DeclaredIn(b + ActCode(acts), |b| + at, v)
  {
  }

  lemma SpilledCode(st: State, params: seq<nat>)
    requires Valid(st)
    ensures var b, b' := st.blocks[st.cur], Push(st, ActCode(ParamActions(params))).blocks[st.cur];
      Continues(b, b', 2 * |params|) && forall i | 0 <= i < |params| :: SpilledIn(b', |b|, params, i)
  {
    ParamActionsAre(params);
    PushedBlock(st, ParamActions(params));
    hide Push, ActCode, ParamActions, SpilledIn, Continues;
    forall i | 0 <= i < |params|
      ensures SpilledIn(st.blocks[st.cur] + ActCode(ParamActions(params)), |st.blocks[st.cur]|, params, i)
    {
      SpilledShift(st.blocks[st.cur], params, i);
    }
  }

  lemma SpilledShift(b: Block, params: seq<nat>, i: nat)
    requires i < |params|
    ensures SpilledIn(b + ActCode(ParamActions(params)), |b|, params, i)
  {
    ParamActionsAre(params);
    var acts, code := ParamActions(params), ActCode(ParamActions(params));
    hide ParamActions;
    assert code[2 * i] == Act(acts[2 * i]) && code[2 * i + 1] == Act(acts[2 * i + 1]);
    assert (b + code)[|b| + 2 * i] == code[2 * i] && (b + code)[|b| + (2 * i + 1)] == code[2 * i + 1];
  }

  /** done are the actions of the first i variables. */
  ghost predicate DeclSplit(vars: seq<VarInit>, i: nat, done: seq<Action>) {
    i <= |vars| && done + DeclActions(vars[i..]) == DeclActions(vars)
  }

  lemma DeclStep(vars: seq<VarInit>, i: nat, done: seq<Action>)
    requires DeclSplit(vars, i, done) && i < |vars|
    ensures DeclSplit(vars, i + 1, done + VarActions(vars[i]))
  {
    assert vars[i..][1..] == vars[i + 1..];
    assert done + (VarActions(vars[i]) + DeclActions(vars[i + 1..]))
           == done + VarActions(vars[i]) + DeclActions(vars[i + 1..]);
  }

  lemma PushPush(st: State, code1: seq<Instr>, code2: seq<Instr>)
    requires Valid(st)
    ensures Push(Push(st, code1), code2) == Push(st, code1 + code2)
  {
    assert st.blocks[st.cur] + code1 + code2 == st.blocks[st.cur] + (code1 + code2);
    assert Push(Push(st, code1), code2).blocks == Push(st, code1 + code2).blocks;
  }

  lemma PushNothing(st: State)
    requires Valid(st)
    ensures Push(st, ActCode([])) == st
  {
    assert st.blocks[st.cur] + ActCode([]) == st.blocks[st.cur];
    assert Push(st, ActCode([])).blocks == st.blocks;
  }

  lemma PushAct(st: State, done: seq<Action>, a: Action)
    requires Valid(st)
    ensures Push(Push(st, ActCode(done)), [Act(a)]) == Push(st, ActCode(done + [a]))
  {
    PushPush(st, ActCode(done), [Act(a)]);
    assert ActCode(done) + [Act(a)] == ActCode(done + [a]);
  }

  lemma AddNoBlocks(st: State)
    requires Valid(st)
    ensures AddBlocks(st, 0) == st
  {
    assert AddBlocks(st, 0).blocks == st.blocks;
  }

  lemma AddOneBlock(st: State, k: nat)
    requires Valid(st)
    ensures AddBlocks(AddBlocks(st, k), 1) == AddBlocks(st, k + 1)
  {
    assert AddBlocks(AddBlocks(st, k), 1).blocks == AddBlocks(st, k + 1).blocks;
  }
}
