/**
 The lowering preserves meaning: running the emitted blocks performs the same actions, in the same order, and
 finishes in the same way as the statement does, or keeps running as long as the statement does.
 */
module Simulation {
  import opened Wrappers
  import opened Statements
  import opened Cfg
  import opened Lowering

  predicate CodeAt(F: seq<Block>, b: nat, i: nat, code: seq<Instr>) {
    b < |F| && i + |code| <= |F[b]| && F[b][i..i + |code|] == code
  }

  lemma ExtendsTrans(F1: seq<Block>, F2: seq<Block>, F3: seq<Block>)
    requires Extends(F1, F2) && Extends(F2, F3)
    ensures Extends(F1, F3)
  {
    forall b | 0 <= b < |F1| ensures F1[b] <= F3[b] {
      assert F1[b] <= F2[b] <= F3[b];
    }
  }

  lemma PushedCode(st: State, code: seq<Instr>, F: seq<Block>)
    requires Valid(st) && Extends(Push(st, code).blocks, F)
    ensures CodeAt(F, st.cur, |st.blocks[st.cur]|, code)
  {
    var b := st.blocks[st.cur] + code;
    assert Push(st, code).blocks[st.cur] == b;
    assert b <= F[st.cur];
    assert F[st.cur][..|b|] == b;
    assert F[st.cur][|st.blocks[st.cur]|..|b|] == b[|st.blocks[st.cur]|..];
  }

  lemma CodeElements(F: seq<Block>, b: nat, i: nat, code: seq<Instr>)
    requires CodeAt(F, b, i, code)
    ensures forall j | i <= j < i + |code| :: F[b][j] == code[j - i]
  {
    forall j | i <= j < i + |code| ensures F[b][j] == code[j - i] {
      assert F[b][j] == F[b][i..i + |code|][j - i];
    }
  }

  /** The outcome o of a statement, as the configuration c reached after k steps of the emitted code. */
  predicate Matches(o: Outcome, brk: seq<nat>, cont: seq<nat>, st': State, c: Config, k: nat, fuel: nat)
    requires Valid(st')
  {
    match o
    case Normal(h) =>
      && c.At? && c.b == st'.cur && c.i == |st'.blocks[st'.cur]| && c.h == h
      && !Terminated(st'.blocks[st'.cur])
    case Broke(h) => |brk| > 0 && c.At? && c.b == brk[|brk| - 1] && c.i == 0 && c.h == h
    case Continued(h) => |cont| > 0 && c.At? && c.b == cont[|cont| - 1] && c.i == 0 && c.h == h
    case Returns(h, r) => c == Halted(h, r)
    case Timeout(h) => c.At? && c.h == h && k >= fuel
  }

  /** Where control is when code is about to be appended to the insertion block. */
  function Here(st: State, h: History, last: int): Config
    requires Valid(st)
  {
    At(st.cur, |st.blocks[st.cur]|, h, last)
  }

  lemma {:induction false} RunActs(F: seq<Block>, val: Oracle, b: nat, i: nat, acts: seq<Action>, h: History, last: int)
      returns (last': int)
    requires CodeAt(F, b, i, ActCode(acts))
    ensures Run(F, val, At(b, i, h, last), |acts|) == At(b, i + |acts|, h + acts, last')
    decreases |acts|
  {
    if acts == [] {
      assert h + acts == h;
      last' := last;
    } else {
      var code := F[b][i..i + |acts|];
      assert F[b][i] == code[0] == Act(acts[0]);
      assert F[b][i + 1..i + |acts|] == code[1..] == ActCode(acts[1..]);
      var h1 := h + [acts[0]];
      last' := RunActs(F, val, b, i + 1, acts[1..], h1, Effect(acts[0], val, h1));
      assert h1 + acts[1..] == h + acts;
    }
  }

  /** The branch behind a condition: a condition without a value goes to the default side. */
  function CondBranch(e: Expr, t: nat, f: nat, default: bool): Instr {
    if e.ty.NoValue? then Br(if default then t else f) else CondBr(t, f)
  }

  lemma RunCond(F: seq<Block>, val: Oracle, b: nat, i: nat, e: Expr, t: nat, f: nat, default: bool, h: History,
                last: int)
      returns (k: nat, last': int)
    requires CodeAt(F, b, i, CondCode(e) + [CondBranch(e, t, f, default)])
    ensures k >= 1
    ensures var h1 := h + [Eval(e)];
      Run(F, val, At(b, i, h, last), k) == At(if Holds(e, val, h1, default) then t else f, 0, h1, last')
  {
    var code := CondCode(e) + [CondBranch(e, t, f, default)];
    CodeElements(F, b, i, code);
    var h1 := h + [Eval(e)];
    var c0 := At(b, i, h, last);
    var c1 := At(b, i + 1, h1, ValueOf(e, val, h1));
    assert F[b][i] == code[0];
    assert Step(F, val, c0) == c1;
    if e.ty.Wide? {
      var c2 := At(b, i + 2, h1, if c1.last != 0 then 1 else 0);
      assert F[b][i + 1] == code[1] == ToBool && F[b][i + 2] == code[2];
      assert Step(F, val, c1) == c2;
      k, last' := 3, c2.last;
      assert Run(F, val, c0, 3) == Run(F, val, c1, 2) == Run(F, val, c2, 1) == Step(F, val, c2);
    } else {
      assert F[b][i + 1] == code[1];
      k, last' := 2, c1.last;
      assert Run(F, val, c0, 2) == Run(F, val, c1, 1) == Step(F, val, c1);
    }
  }

  lemma RunBr(F: seq<Block>, val: Oracle, b: nat, i: nat, t: nat, h: History, last: int)
    requires CodeAt(F, b, i, [Br(t)])
    ensures Run(F, val, At(b, i, h, last), 1) == At(t, 0, h, last)
  {
    assert F[b][i] == F[b][i..i + 1][0];
    assert Run(F, val, At(b, i, h, last), 1) == Step(F, val, At(b, i, h, last));
  }

  /** Falling off the end of a statement into the branch added after it. */
  lemma RunBranchTo(F: seq<Block>, val: Oracle, st: State, t: nat, h: History, last: int)
    requires Valid(st) && !Terminated(st.blocks[st.cur]) && Extends(BranchTo(st, t).blocks, F)
    ensures Run(F, val, Here(st, h, last), 1) == At(t, 0, h, last)
  {
    PushedCode(st, [Br(t)], F);
    RunBr(F, val, st.cur, |st.blocks[st.cur]|, t, h, last);
  }

  /**
   The simulation. Whatever code is emitted later only appends, so F is any function that extends the blocks
   emitted for s; k is the number of machine steps that the statement takes.
   */
  lemma {:induction false} Simulate(s: Stmt, st: State, F: seq<Block>, val: Oracle, h: History, last: int, fuel: nat)
      returns (k: nat)
    requires Valid(st) && Scoped(s, |st.brk| > 0) && !Terminated(st.blocks[st.cur])
    requires Extends(Emit(s, st).blocks, F)
    ensures Matches(Exec(s, val, h, fuel), st.brk, st.cont, Emit(s, st), Run(F, val, Here(st, h, last), k), k, fuel)
    decreases fuel, s, 3
  {
    var st' := Emit(s, st);
    var b, i := st.cur, |st.blocks[st.cur]|;
    match s
    case ExprStmt(e) =>
      var _ := SimulateActs(st, [Eval(e)], F, val, h, last);
      assert ActCode([Eval(e)]) == [Act(Eval(e))];
      k := 1;
    case NullStmt =>
      k := 0;
    case DeclStmt(vars) =>
      var _ := SimulateActs(st, DeclActions(vars), F, val, h, last);
      k := |DeclActions(vars)|;
    case Compound(body) =>
      k := SimulateAll(body, st, F, val, h, last, fuel);
    case If(_, _, _) =>
      k := SimulateIf(s, st, F, val, h, last, fuel);
    case While(_, _) =>
      k := SimulateWhile(s, st, F, val, h, last, fuel);
    case Do(_, _) =>
      k := SimulateDo(s, st, F, val, h, last, fuel);
    case For(_, _, _, _) =>
      k := SimulateFor(s, st, F, val, h, last, fuel);
    case Break =>
      PushedCode(st, [Br(st.brk[|st.brk| - 1])], F);
      RunBr(F, val, b, i, st.brk[|st.brk| - 1], h, last);
      k := 1;
    case Continue =>
      PushedCode(st, [Br(st.cont[|st.cont| - 1])], F);
      RunBr(F, val, b, i, st.cont[|st.cont| - 1], h, last);
      k := 1;
    case Return(result) =>
      k := SimulateReturn(result, st, F, val, h, last);
  }

  lemma SimulateActs(st: State, acts: seq<Action>, F: seq<Block>, val: Oracle, h: History, last: int)
      returns (last': int)
    requires Valid(st) && !Terminated(st.blocks[st.cur])
    requires Extends(Push(st, ActCode(acts)).blocks, F)
    ensures var st' := Push(st, ActCode(acts));
      && Run(F, val, Here(st, h, last), |acts|) == Here(st', h + acts, last')
      && !Terminated(st'.blocks[st'.cur])
  {
    PushedCode(st, ActCode(acts), F);
    last' := RunActs(F, val, st.cur, |st.blocks[st.cur]|, acts, h, last);
  }

  lemma SimulateReturn(result: Option<Expr>, st: State, F: seq<Block>, val: Oracle, h: History, last: int)
      returns (k: nat)
    requires Valid(st) && Extends(Push(st, ReturnCode(result)).blocks, F)
    ensures var o := ReturnOf(result, val, h);
      Run(F, val, Here(st, h, last), k) == Halted(o.h, o.r)
  {
    var b, i := st.cur, |st.blocks[st.cur]|;
    var code := ReturnCode(result);
    PushedCode(st, code, F);
    CodeElements(F, b, i, code);
    assert F[b][i + 0] == code[0];
    var c := At(b, i, h, last);
    match result
    case None =>
      k := 1;
      assert Run(F, val, c, 1) == Step(F, val, c);
    case Some(e) =>
      k := 2;
      var h1 := h + [Eval(e)];
      var c1 := At(b, i + 1, h1, ValueOf(e, val, h1));
      assert F[b][i + 1] == code[1];
      assert Step(F, val, c) == c1;
      assert Run(F, val, c, 2) == Run(F, val, c1, 1) == Step(F, val, c1);
  }

  lemma {:induction false} SimulateAll(ss: seq<Stmt>, st: State, F: seq<Block>, val: Oracle, h: History, last: int,
                                       fuel: nat)
      returns (k: nat)
    requires Valid(st) && (forall i | 0 <= i < |ss| :: Scoped(ss[i], |st.brk| > 0)) && !Terminated(st.blocks[st.cur])
    requires Extends(EmitAll(ss, st).blocks, F)
    ensures Matches(ExecAll(ss, val, h, fuel), st.brk, st.cont, EmitAll(ss, st), Run(F, val, Here(st, h, last), k),
                    k, fuel)
    decreases fuel, ss, 5
  {
    if ss == [] {
      k := 0;
    } else {
      var st1 := Emit(ss[0], st);
      ExtendsTrans(st1.blocks, EmitAll(ss[1..], st1).blocks, F);
      k := Simulate(ss[0], st, F, val, h, last, fuel);
      var o := Exec(ss[0], val, h, fuel);
      if o.Normal? {
        var c1 := Run(F, val, Here(st, h, last), k);
        var k2 := SimulateAll(ss[1..], st1, F, val, o.h, c1.last, fuel);
        RunTrans(F, val, Here(st, h, last), k, k2);
        k := k + k2;
      }
    }
  }

  lemma {:induction false} SimulateIf(s: Stmt, st: State, F: seq<Block>, val: Oracle, h: History, last: int, fuel: nat)
      returns (k: nat)
    requires s.If?
    requires Valid(st) && Scoped(s, |st.brk| > 0) && !Terminated(st.blocks[st.cur])
    requires Extends(EmitIf(s, st).blocks, F)
    ensures Matches(Exec(s, val, h, fuel), st.brk, st.cont, EmitIf(s, st), Run(F, val, Here(st, h, last), k), k, fuel)
    decreases fuel, s, 1
  {
    hide EmitArms, EmitIf, Extends, ExecAll, ExecWhile, ExecDo, ExecFor, CodeAt, CondCode;
    var n := |st.blocks|;
    var end := if s.els.Some? then n + 2 else n + 1;
    var st1 := IfHead(s.cond, s.els.Some?, st);
    IfLayout(s, st, F);
    IfEnd(s, st);
    var h1 := h + [Eval(s.cond)];
    var no := if s.cond.ty.NoValue? then end else n + 1;
    var k1, last1 := RunCond(F, val, st.cur, |st.blocks[st.cur]|, s.cond, n, no, false, h, last);
    k := k1;
    if !s.cond.ty.NoValue? {
      var k2 := SimulateArms(s, n, end, st1, F, val, h1, last1, fuel);
      RunTrans(F, val, Here(st, h, last), k1, k2);
      k := k1 + k2;
    }
  }

  /** Emission moves on to the last block that it created, still empty. */
  lemma IfEnd(s: Stmt, st: State)
    requires s.If? && Valid(st)
    ensures EmitIf(s, st).cur == |st.blocks| + (if s.els.Some? then 2 else 1)
    ensures EmitIf(s, st).blocks[|st.blocks| + (if s.els.Some? then 2 else 1)] == []
  {
    hide EmitArms, CondCode;
  }

  lemma IfLayout(s: Stmt, st: State, F: seq<Block>)
    requires s.If? && Valid(st) && Extends(EmitIf(s, st).blocks, F)
    ensures var n := |st.blocks|;
      var end := if s.els.Some? then n + 2 else n + 1;
      var st1 := IfHead(s.cond, s.els.Some?, st);
      && CodeAt(F, st.cur, |st.blocks[st.cur]|,
                CondCode(s.cond) + [CondBranch(s.cond, n, if s.cond.ty.NoValue? then end else n + 1, false)])
      && (forall b | n <= b <= end :: st1.blocks[b] == [])
      && (!s.cond.ty.NoValue? ==> Extends(EmitArms(s, n, end, st1).blocks, F))
  {
    hide EmitArms, Emit;
    var n := |st.blocks|;
    var end := if s.els.Some? then n + 2 else n + 1;
    var st1 := IfHead(s.cond, s.els.Some?, st);
    ExtendsTrans(st1.blocks, EmitIf(s, st).blocks, F);
    PushedCode(AddBlocks(st, if s.els.Some? then 3 else 2),
               CondCode(s.cond) + [CondBranch(s.cond, n, if s.cond.ty.NoValue? then end else n + 1, false)], F);
  }

  /** The outcome o of a loop or of a side of an if, that leaves through the start of block end. */
  predicate MatchesTo(end: nat, o: Outcome, brk: seq<nat>, cont: seq<nat>, c: Config, k: nat, fuel: nat) {
    match o
    case Normal(h) => c.At? && c.b == end && c.i == 0 && c.h == h
    case Broke(h) => |brk| > 0 && c.At? && c.b == brk[|brk| - 1] && c.i == 0 && c.h == h
    case Continued(h) => |cont| > 0 && c.At? && c.b == cont[|cont| - 1] && c.i == 0 && c.h == h
    case Returns(h, r) => c == Halted(h, r)
    case Timeout(h) => c.At? && c.h == h && k >= fuel
  }

  lemma {:induction false} SimulateArms(s: Stmt, n: nat, end: nat, st: State, F: seq<Block>, val: Oracle, h: History,
                                        last: int, fuel: nat)
      returns (k: nat)
    requires Valid(st) && s.If? && n < end < |st.blocks| && (s.els.Some? ==> n + 1 < end)
             && (s.els.None? ==> n + 1 == end)
    requires Scoped(s, |st.brk| > 0) && st.blocks[n] == [] && (s.els.Some? ==> st.blocks[n + 1] == [])
    requires Extends(EmitArms(s, n, end, st).blocks, F)
    ensures
      var yes := Holds(s.cond, val, h, false);
      var o := if yes then Exec(s.thn, val, h, fuel) else if s.els.Some? then Exec(s.els.value, val, h, fuel)
               else Normal(h);
      MatchesTo(end, o, st.brk, st.cont, Run(F, val, At(if yes then n else n + 1, 0, h, last), k), k, fuel)
    decreases fuel, s, 0
  {
    var st1 := EmitArm(s.thn, n, end, st);
    if Holds(s.cond, val, h, false) {
      assert Extends(st1.blocks, EmitArms(s, n, end, st).blocks);
      ExtendsTrans(st1.blocks, EmitArms(s, n, end, st).blocks, F);
      k := SimulateArm(s.thn, n, end, st, F, val, h, last, fuel);
    } else if s.els.Some? {
      k := SimulateArm(s.els.value, n + 1, end, st1, F, val, h, last, fuel);
    } else {
      k := 0;
    }
  }

  lemma {:induction false} SimulateArm(s: Stmt, entry: nat, end: nat, st: State, F: seq<Block>, val: Oracle,
                                       h: History, last: int, fuel: nat)
      returns (k: nat)
    requires Valid(st) && entry < |st.blocks| && Scoped(s, |st.brk| > 0) && st.blocks[entry] == []
    requires Extends(EmitArm(s, entry, end, st).blocks, F)
    ensures MatchesTo(end, Exec(s, val, h, fuel), st.brk, st.cont, Run(F, val, At(entry, 0, h, last), k), k, fuel)
    decreases fuel, s, 4
  {
    var st0 := st.(cur := entry);
    var st1 := Emit(s, st0);
    ExtendsTrans(st1.blocks, BranchTo(st1, end).blocks, F);
    k := Simulate(s, st0, F, val, h, last, fuel);
    k := FallThrough(Exec(s, val, h, fuel), st1, end, st.brk, st.cont, F, val, Here(st0, h, last), k, fuel);
  }

  /** A statement that completes normally goes on to the branch added behind it. */
  lemma FallThrough(o: Outcome, st: State, end: nat, brk: seq<nat>, cont: seq<nat>, F: seq<Block>, val: Oracle,
                    c: Config, k: nat, fuel: nat)
      returns (k': nat)
    requires Valid(st) && Extends(BranchTo(st, end).blocks, F)
    requires Matches(o, brk, cont, st, Run(F, val, c, k), k, fuel)
    ensures MatchesTo(end, o, brk, cont, Run(F, val, c, k'), k', fuel)
  {
    k' := k;
    if o.Normal? {
      var c1 := Run(F, val, c, k);
      RunBranchTo(F, val, st, end, o.h, c1.last);
      RunTrans(F, val, c, k, 1);
      k' := k + 1;
    }
  }

  /** The outcome of a loop body: normal completion and continue meet at cont. */
  predicate BodyMatches(o: Outcome, brk: nat, cont: nat, c: Config, k: nat, fuel: nat) {
    MatchesTo(cont, o, [brk], [cont], c, k, fuel)
  }

  lemma {:induction false} SimulateBody(s: Stmt, entry: nat, brk: nat, cont: nat, st: State, F: seq<Block>,
                                        val: Oracle, h: History, last: int, fuel: nat)
      returns (k: nat)
    requires Valid(st) && entry < |st.blocks| && brk < |st.blocks| && cont < |st.blocks|
    requires Scoped(s, true) && st.blocks[entry] == []
    requires Extends(EmitLoopBody(s, entry, brk, cont, st).blocks, F)
    ensures BodyMatches(Exec(s, val, h, fuel), brk, cont, Run(F, val, At(entry, 0, h, last), k), k, fuel)
    decreases fuel, s, 4
  {
    var st0 := EnterLoop(st, brk, cont).(cur := entry);
    var st1 := Emit(s, st0);
    ExtendsTrans(st1.blocks, BranchTo(st1, cont).blocks, F);
    k := Simulate(s, st0, F, val, h, last, fuel);
    k := FallThrough(Exec(s, val, h, fuel), st1, cont, st0.brk, st0.cont, F, val, Here(st0, h, last), k, fuel);
  }

  lemma {:induction false} SimulateWhile(s: Stmt, st: State, F: seq<Block>, val: Oracle, h: History, last: int,
                                         fuel: nat)
      returns (k: nat)
    requires s.While?
    requires Valid(st) && Scoped(s, |st.brk| > 0) && !Terminated(st.blocks[st.cur])
    requires Extends(EmitWhile(s, st).blocks, F)
    ensures Matches(Exec(s, val, h, fuel), st.brk, st.cont, EmitWhile(s, st), Run(F, val, Here(st, h, last), k),
                    k, fuel)
    decreases fuel, s, 1
  {
    hide EmitLoopBody, EmitWhile, WhileCode, Extends, CodeAt, ExecWhile, ExecAll, ExecDo, ExecFor;
    var n := |st.blocks|;
    var st1 := Push(WhileHead(st), WhileCode(s.cond, n));
    WhileLayout(s, st, F);
    WhileEnd(s, st);
    RunBr(F, val, st.cur, |st.blocks[st.cur]|, n, h, last);
    var k2 := SimulateWhileLoop(s, n, st1, F, val, h, last, fuel);
    RunTrans(F, val, Here(st, h, last), 1, k2);
    k := 1 + k2;
  }

  /** Emission moves on to the last block that it created, still empty. */
  lemma WhileEnd(s: Stmt, st: State)
    requires s.While? && Valid(st)
    ensures EmitWhile(s, st).cur == |st.blocks| + 2
    ensures EmitWhile(s, st).blocks[|st.blocks| + 2] == []
  {
    hide EmitLoopBody, WhileCode;
  }

  lemma WhileLayout(s: Stmt, st: State, F: seq<Block>)
    requires s.While? && Valid(st) && Extends(EmitWhile(s, st).blocks, F)
    ensures var n := |st.blocks|;
      var st1 := Push(WhileHead(st), WhileCode(s.cond, n));
      && CodeAt(F, st.cur, |st.blocks[st.cur]|, [Br(n)])
      && CodeAt(F, n, 0, WhileCode(s.cond, n))
      && st1.blocks[n + 1] == []
      && Extends(EmitLoopBody(s.loopBody, n + 1, n + 2, n, st1).blocks, F)
  {
    hide EmitLoopBody, WhileCode;
    var n := |st.blocks|;
    var st0 := WhileHead(st);
    var st1 := Push(st0, WhileCode(s.cond, n));
    var st2 := EmitLoopBody(s.loopBody, n + 1, n + 2, n, st1);
    ExtendsTrans(st1.blocks, st2.blocks, F);
    ExtendsTrans(st0.blocks, st1.blocks, F);
    PushedCode(st0, WhileCode(s.cond, n), F);
    PushedCode(AddBlocks(st, 3), [Br(n)], F);
  }

  lemma {:induction false} SimulateWhileLoop(s: Stmt, n: nat, st: State, F: seq<Block>, val: Oracle, h: History,
                                             last: int, fuel: nat)
      returns (k: nat)
    requires s.While? && Valid(st) && n + 2 < |st.blocks| && Scoped(s.loopBody, true) && st.blocks[n + 1] == []
    requires CodeAt(F, n, 0, WhileCode(s.cond, n))
    requires Extends(EmitLoopBody(s.loopBody, n + 1, n + 2, n, st).blocks, F)
    ensures MatchesTo(n + 2, ExecWhile(s, val, h, fuel), [], [], Run(F, val, At(n, 0, h, last), k), k, fuel)
    decreases fuel, s, 0
  {
    hide Emit, EmitLoopBody, Extends, Valid, Exec;
    k := 0;
    if fuel > 0 {
      var c0 := At(n, 0, h, last);
      var h1 := h + [Eval(s.cond)];
      var k1, last1 := RunCond(F, val, n, 0, s.cond, n + 1, n + 2, false, h, last);
      k := k1;
      if Holds(s.cond, val, h1, false) {
        var k2 := SimulateBody(s.loopBody, n + 1, n + 2, n, st, F, val, h1, last1, fuel);
        RunTrans(F, val, c0, k1, k2);
        k := k1 + k2;
        var o := Exec(s.loopBody, val, h1, fuel);
        if o.Normal? || o.Continued? {
          var k3 := SimulateWhileLoop(s, n, st, F, val, o.h, Run(F, val, c0, k).last, fuel - 1);
          RunTrans(F, val, c0, k, k3);
          k := k + k3;
        }
      }
    }
  }

  lemma {:induction false} SimulateDo(s: Stmt, st: State, F: seq<Block>, val: Oracle, h: History, last: int, fuel: nat)
      returns (k: nat)
    requires s.Do?
    requires Valid(st) && Scoped(s, |st.brk| > 0) && !Terminated(st.blocks[st.cur])
    requires Extends(EmitDo(s, st).blocks, F)
    ensures Matches(Exec(s, val, h, fuel), st.brk, st.cont, EmitDo(s, st), Run(F, val, Here(st, h, last), k), k, fuel)
    decreases fuel, s, 1
  {
    hide EmitLoopBody, EmitDo, DoCode, Extends, CodeAt, ExecDo, ExecAll, ExecWhile, ExecFor;
    var n := |st.blocks|;
    DoLayout(s, st, F);
    DoEnd(s, st);
    RunBr(F, val, st.cur, |st.blocks[st.cur]|, n, h, last);
    var k2 := SimulateDoLoop(s, n, Push(AddBlocks(st, 3), [Br(n)]), F, val, h, last, fuel);
    RunTrans(F, val, Here(st, h, last), 1, k2);
    k := 1 + k2;
  }

  /** Emission moves on to the last block that it created, still empty. */
  lemma DoEnd(s: Stmt, st: State)
    requires s.Do? && Valid(st)
    ensures EmitDo(s, st).cur == |st.blocks| + 2
    ensures EmitDo(s, st).blocks[|st.blocks| + 2] == []
  {
    hide EmitLoopBody, DoCode;
  }

  lemma DoLayout(s: Stmt, st: State, F: seq<Block>)
    requires s.Do? && Valid(st) && Extends(EmitDo(s, st).blocks, F)
    ensures var n := |st.blocks|;
      var st1 := Push(AddBlocks(st, 3), [Br(n)]);
      && CodeAt(F, st.cur, |st.blocks[st.cur]|, [Br(n)])
      && CodeAt(F, n + 1, 0, DoCode(s.cond, n))
      && st1.blocks[n] == []
      && Extends(EmitLoopBody(s.loopBody, n, n + 2, n + 1, st1).blocks, F)
  {
    hide EmitLoopBody, DoCode;
    var n := |st.blocks|;
    var st1 := Push(AddBlocks(st, 3), [Br(n)]);
    var st2 := EmitLoopBody(s.loopBody, n, n + 2, n + 1, st1);
    var st3 := st2.(cur := n + 1);
    PushedCode(st3, DoCode(s.cond, n), F);
    ExtendsTrans(st2.blocks, Push(st3, DoCode(s.cond, n)).blocks, F);
    ExtendsTrans(st1.blocks, st2.blocks, F);
    PushedCode(AddBlocks(st, 3), [Br(n)], F);
  }

  lemma {:induction false} SimulateDoLoop(s: Stmt, n: nat, st: State, F: seq<Block>, val: Oracle, h: History,
                                          last: int, fuel: nat)
      returns (k: nat)
    requires s.Do? && Valid(st) && n + 2 < |st.blocks| && Scoped(s.loopBody, true) && st.blocks[n] == []
    requires CodeAt(F, n + 1, 0, DoCode(s.cond, n))
    requires Extends(EmitLoopBody(s.loopBody, n, n + 2, n + 1, st).blocks, F)
    ensures MatchesTo(n + 2, ExecDo(s, val, h, fuel), [], [], Run(F, val, At(n, 0, h, last), k), k, fuel)
    decreases fuel, s, 0
  {
    hide Emit, EmitLoopBody, Extends, Valid, Exec;
    k := 0;
    if fuel > 0 {
      var c0 := At(n, 0, h, last);
      k := SimulateBody(s.loopBody, n, n + 2, n + 1, st, F, val, h, last, fuel);
      var o := Exec(s.loopBody, val, h, fuel);
      if o.Normal? || o.Continued? {
        var h1 := o.h + [Eval(s.cond)];
        var k1, last1 := RunCond(F, val, n + 1, 0, s.cond, n, n + 2, false, o.h, Run(F, val, c0, k).last);
        RunTrans(F, val, c0, k, k1);
        k := k + k1;
        if Holds(s.cond, val, h1, false) {
          var k2 := SimulateDoLoop(s, n, st, F, val, h1, last1, fuel - 1);
          RunTrans(F, val, c0, k, k2);
          k := k + k2;
        }
      }
    }
  }

  lemma {:induction false} SimulateFor(s: Stmt, st: State, F: seq<Block>, val: Oracle, h: History, last: int, fuel: nat)
      returns (k: nat)
    requires s.For?
    requires Valid(st) && Scoped(s, |st.brk| > 0) && !Terminated(st.blocks[st.cur])
    requires Extends(EmitFor(s, st).blocks, F)
    ensures Matches(Exec(s, val, h, fuel), st.brk, st.cont, EmitFor(s, st), Run(F, val, Here(st, h, last), k), k, fuel)
    decreases fuel, s, 2
  {
    hide EmitLoopBody, EmitForLoop, EmitFor, Extends, CodeAt, ExecFor, ExecWhile, ExecDo, ExecAll, EmitIf, EmitWhile;
    hide EmitDo;
    var n := |st.blocks|;
    var sti := AddBlocks(st, 4);
    var st0 := Emit(s.init, sti);
    var st1 := Push(st0, [Br(n)]);
    ForLayout(s, st, F);
    ForEnd(s, st);
    k := Simulate(s.init, sti, F, val, h, last, fuel);
    var o := Exec(s.init, val, h, fuel);
    if o.Normal? {
      var c1 := Run(F, val, Here(st, h, last), k);
      RunBr(F, val, st0.cur, |st0.blocks[st0.cur]|, n, o.h, c1.last);
      RunTrans(F, val, Here(st, h, last), k, 1);
      var k2 := SimulateForLoop(s, n, st1, F, val, o.h, c1.last, fuel);
      RunTrans(F, val, Here(st, h, last), k + 1, k2);
      k := k + 1 + k2;
    }
  }

  /** Emission moves on to the last block that it created, still empty. */
  lemma ForEnd(s: Stmt, st: State)
    requires s.For? && Valid(st)
    ensures EmitFor(s, st).cur == |st.blocks| + 3
    ensures EmitFor(s, st).blocks[|st.blocks| + 3] == []
  {
    hide EmitForLoop, Emit;
    var n := |st.blocks|;
    var st0 := Emit(s.init, AddBlocks(st, 4));
    assert st0.blocks[n + 3] == AddBlocks(st, 4).blocks[n + 3] == [];
  }

  lemma ForLayout(s: Stmt, st: State, F: seq<Block>)
    requires s.For? && Valid(st) && Extends(EmitFor(s, st).blocks, F)
    ensures var n := |st.blocks|;
      var st0 := Emit(s.init, AddBlocks(st, 4));
      var st1 := Push(st0, [Br(n)]);
      && Extends(st0.blocks, F)
      && CodeAt(F, st0.cur, |st0.blocks[st0.cur]|, [Br(n)])
      && (forall b | n <= b <= n + 3 :: st1.blocks[b] == [])
      && Extends(EmitForLoop(s, n, st1).blocks, F)
  {
    hide EmitForLoop, Emit;
    var n := |st.blocks|;
    var st0 := Emit(s.init, AddBlocks(st, 4));
    var st1 := Push(st0, [Br(n)]);
    var st2 := EmitForLoop(s, n, st1);
    assert forall b | n <= b <= n + 3 :: st1.blocks[b] == [];
    assert Extends(st1.blocks, st2.blocks);
    ExtendsTrans(st1.blocks, st2.blocks, F);
    ExtendsTrans(st0.blocks, st1.blocks, F);
    PushedCode(st0, [Br(n)], F);
  }

  lemma ForLoopLayout(s: Stmt, n: nat, st: State, F: seq<Block>)
    requires s.For? && Valid(st) && n + 4 <= |st.blocks| && (forall b | n <= b <= n + 3 :: st.blocks[b] == [])
    requires Extends(EmitForLoop(s, n, st).blocks, F)
    ensures var st1 := Push(st.(cur := n), ForCode(s.forCond, n));
      && CodeAt(F, n, 0, ForCode(s.forCond, n))
      && CodeAt(F, n + 2, 0, IncCode(s.inc) + [Br(n)])
      && st1.blocks[n + 1] == []
      && Extends(EmitLoopBody(s.loopBody, n + 1, n + 3, n + 2, st1).blocks, F)
  {
    hide EmitLoopBody, ForCode, IncCode;
    var st0 := st.(cur := n);
    var st1 := Push(st0, ForCode(s.forCond, n));
    var st2 := EmitLoopBody(s.loopBody, n + 1, n + 3, n + 2, st1);
    var st3 := st2.(cur := n + 2);
    PushedCode(st3, IncCode(s.inc) + [Br(n)], F);
    ExtendsTrans(st2.blocks, Push(st3, IncCode(s.inc) + [Br(n)]).blocks, F);
    ExtendsTrans(st1.blocks, st2.blocks, F);
    PushedCode(st0, ForCode(s.forCond, n), F);
  }

  /** The condition block of a for, which may have no condition. */
  lemma RunForCond(F: seq<Block>, val: Oracle, cond: Option<Expr>, n: nat, h: History, last: int)
      returns (k: nat, last': int)
    requires CodeAt(F, n, 0, ForCode(cond, n))
    ensures k >= 1
    ensures var h1 := if cond.Some? then h + [Eval(cond.value)] else h;
      var leave := cond.Some? && !Holds(cond.value, val, h1, true);
      Run(F, val, At(n, 0, h, last), k) == At(if leave then n + 3 else n + 1, 0, h1, last')
  {
    if cond.None? {
      RunBr(F, val, n, 0, n + 1, h, last);
      k, last' := 1, last;
    } else {
      k, last' := RunCond(F, val, n, 0, cond.value, n + 1, n + 3, true, h, last);
    }
  }

  /** The increment block of a for. */
  lemma RunInc(F: seq<Block>, val: Oracle, inc: Option<Expr>, n: nat, h: History, last: int)
      returns (k: nat, last': int)
    requires CodeAt(F, n + 2, 0, IncCode(inc) + [Br(n)])
    ensures var h1 := if inc.Some? then h + [Eval(inc.value)] else h;
      Run(F, val, At(n + 2, 0, h, last), k) == At(n, 0, h1, last')
  {
    if inc.None? {
      assert IncCode(inc) + [Br(n)] == [Br(n)];
      RunBr(F, val, n + 2, 0, n, h, last);
      k, last' := 1, last;
    } else {
      CodeElements(F, n + 2, 0, IncCode(inc) + [Br(n)]);
      var h1 := h + [Eval(inc.value)];
      last' := ValueOf(inc.value, val, h1);
      var c0, c1 := At(n + 2, 0, h, last), At(n + 2, 1, h1, last');
      assert F[n + 2][0] == Act(Eval(inc.value)) && F[n + 2][1] == Br(n);
      assert Step(F, val, c0) == c1;
      assert Run(F, val, c0, 2) == Run(F, val, c1, 1) == Step(F, val, c1);
      k := 2;
    }
  }

  lemma {:induction false} SimulateForLoop(s: Stmt, n: nat, st: State, F: seq<Block>, val: Oracle, h: History,
                                           last: int, fuel: nat)
      returns (k: nat)
    requires s.For? && Valid(st) && n + 4 <= |st.blocks| && (forall b | n <= b <= n + 3 :: st.blocks[b] == [])
    requires Scoped(s.loopBody, true) && Extends(EmitForLoop(s, n, st).blocks, F)
    ensures MatchesTo(n + 3, ExecFor(s, val, h, fuel), [], [], Run(F, val, At(n, 0, h, last), k), k, fuel)
    decreases fuel, s, 1
  {
    hide Emit, EmitLoopBody, EmitForLoop, Extends, Exec;
    k := 0;
    if fuel > 0 {
      ForLoopLayout(s, n, st, F);
      var c0 := At(n, 0, h, last);
      var h1 := if s.forCond.Some? then h + [Eval(s.forCond.value)] else h;
      var k1, last1 := RunForCond(F, val, s.forCond, n, h, last);
      k := k1;
      if !(s.forCond.Some? && !Holds(s.forCond.value, val, h1, true)) {
        var st1 := Push(st.(cur := n), ForCode(s.forCond, n));
        var k2 := SimulateBody(s.loopBody, n + 1, n + 3, n + 2, st1, F, val, h1, last1, fuel);
        RunTrans(F, val, c0, k1, k2);
        k := k1 + k2;
        var o := Exec(s.loopBody, val, h1, fuel);
        if o.Normal? || o.Continued? {
          var k3 := SimulateForNext(s, n, st, F, val, o.h, Run(F, val, c0, k).last, fuel);
          RunTrans(F, val, c0, k, k3);
          k := k + k3;
        }
      }
    }
  }

  /** The rest of a for loop from its increment block. */
  lemma {:induction false} SimulateForNext(s: Stmt, n: nat, st: State, F: seq<Block>, val: Oracle, h: History,
                                           last: int, fuel: nat)
      returns (k: nat)
    requires s.For? && Valid(st) && n + 4 <= |st.blocks| && (forall b | n <= b <= n + 3 :: st.blocks[b] == [])
    requires Scoped(s.loopBody, true) && Extends(EmitForLoop(s, n, st).blocks, F) && fuel > 0
    requires CodeAt(F, n + 2, 0, IncCode(s.inc) + [Br(n)])
    ensures var h1 := if s.inc.Some? then h + [Eval(s.inc.value)] else h;
      MatchesTo(n + 3, ExecFor(s, val, h1, fuel - 1), [], [], Run(F, val, At(n + 2, 0, h, last), k), k, fuel - 1)
    decreases fuel, s, 0
  {
    hide EmitForLoop, EmitLoopBody, Extends, ExecFor, Exec, CodeAt, Valid;
    var h1 := if s.inc.Some? then h + [Eval(s.inc.value)] else h;
    var k1, last1 := RunInc(F, val, s.inc, n, h, last);
    var k2 := SimulateForLoop(s, n, st, F, val, h1, last1, fuel - 1);
    RunTrans(F, val, At(n + 2, 0, h, last), k1, k2);
    k := k1 + k2;
  }
}
