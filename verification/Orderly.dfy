/** When every emitted block has at most one terminator, and when that is last: it depends on what is emitted behind a
  * jump. */
module Orderly {
  import opened Wrappers
  import opened Statements
  import opened Cfg
  import opened Lowering
  import opened WellFormed

  /** Emits no terminator and, if terminators must be last, no instruction at all. */
  predicate Inert(s: Stmt, last: bool) {
    match s
    case ExprStmt(_) => !last
    case NullStmt => true
    case DeclStmt(vars) => vars == [] || !last
    case Compound(body) => forall i | 0 <= i < |body| :: Inert(body[i], last)
    case _ => false
  }

  /** Whether the insertion block has a terminator after s, given whether it has one before. */
  predicate Ends(s: Stmt, before: bool) {
    match s
    case Compound(body) => EndsAll(body, before)
    case If(_, _, _) => false
    case While(_, _) => false
    case Do(_, _) => false
    case For(_, _, _, _) => false
    case Break => true
    case Continue => true
    case Return(_) => true
    case _ => before
  }

  predicate EndsAll(ss: seq<Stmt>, before: bool) {
    if ss == [] then before else EndsAll(ss[1..], Ends(ss[0], before))
  }

  /** Only inert statements follow a jump in the same list, here and in every part of s. */
  predicate NoDeadCode(s: Stmt, before: bool, last: bool) {
    if before then Inert(s, last)
    else
      match s
      case Compound(body) => NoDeadCodeAll(body, false, last)
      case If(cond, thn, els) =>
        cond.ty.NoValue? || (NoDeadCode(thn, false, last) && (els.Some? ==> NoDeadCode(els.value, false, last)))
      case While(_, body) => NoDeadCode(body, false, last)
      case Do(body, _) => NoDeadCode(body, false, last)
      case For(init, _, _, body) => NoDeadCode(init, false, last) && !Ends(init, false) && NoDeadCode(body, false, last)
      case _ => true
  }

  predicate NoDeadCodeAll(ss: seq<Stmt>, before: bool, last: bool) {
    ss == [] || (NoDeadCode(ss[0], before, last) && NoDeadCodeAll(ss[1..], Ends(ss[0], before), last))
  }

  predicate AtMostOne(b: Block) {
    forall i, j | 0 <= i < j < |b| :: !(IsTerminator(b[i]) && IsTerminator(b[j]))
  }

  /** At most one terminator, and nothing behind it if it must be last. */
  predicate Neat(b: Block, last: bool) {
    if last then Tidy(b) else AtMostOne(b)
  }

  predicate AllNeat(st: State, last: bool) {
    forall b | 0 <= b < |st.blocks| :: Neat(st.blocks[b], last)
  }

  lemma AppendTidy(b: Block, code: seq<Instr>)
    requires code != []
    ensures Tidy(b + code) == (!Terminated(b) && Tidy(code))
  {
    var c := b + code;
    if Tidy(c) {
      forall i | 0 <= i < |b| ensures !IsTerminator(b[i]) { assert c[i] == b[i]; }
      forall i | 0 <= i < |code| - 1 ensures !IsTerminator(code[i]) { assert c[|b| + i] == code[i]; }
    }
    if !Terminated(b) && Tidy(code) {
      forall i | 0 <= i < |c| - 1 ensures !IsTerminator(c[i]) {
        if i >= |b| { assert c[i] == code[i - |b|]; }
      }
    }
  }

  lemma AppendOnce(b: Block, code: seq<Instr>)
    requires Tidy(code)
    ensures AtMostOne(b + code) == (AtMostOne(b) && !(Terminated(b) && Terminated(code)))
  {
    var c := b + code;
    assert forall i | 0 <= i < |b| :: c[i] == b[i];
    assert forall i | 0 <= i < |code| :: c[|b| + i] == code[i];
    if Terminated(b) && Terminated(code) {
      var i :| 0 <= i < |b| && IsTerminator(b[i]);
      var j :| 0 <= j < |code| && IsTerminator(code[j]);
      assert IsTerminator(c[i]) && IsTerminator(c[|b| + j]);
    }
  }

  lemma AppendNeat(b: Block, code: seq<Instr>, last: bool)
    requires code != [] && Tidy(code)
    ensures Neat(b + code, last) == (Neat(b, last) && (!Terminated(b) || (!last && !Terminated(code))))
  {
    AppendTidy(b, code);
    AppendOnce(b, code);
  }

  /** Appending nonempty tidy code keeps all blocks neat exactly when it meets no terminator that it may not follow. */
  lemma PushNeat(st: State, code: seq<Instr>, last: bool)
    requires Valid(st) && Tidy(code) && code != []
    ensures AllNeat(Push(st, code), last)
      == (AllNeat(st, last) && (!Terminated(st.blocks[st.cur]) || (!last && !Terminated(code))))
    ensures Terminated(Push(st, code).blocks[st.cur]) == (Terminated(st.blocks[st.cur]) || Terminated(code))
  {
    hide Tidy, Neat, Terminated;
    var st' := Push(st, code);
    var b := st.blocks[st.cur];
    AppendNeat(b, code, last);
    AppendTerminated(b, code);
    assert forall c | 0 <= c < |st.blocks| && c != st.cur :: st'.blocks[c] == st.blocks[c];
    if AllNeat(st', last) {
      assert Neat(st'.blocks[st.cur], last);
      forall c | 0 <= c < |st.blocks| ensures Neat(st.blocks[c], last) {
        assert Neat(st'.blocks[c], last);
      }
    }
  }

  lemma AddBlocksNeat(st: State, n: nat, last: bool)
    requires Valid(st)
    ensures AllNeat(AddBlocks(st, n), last) == AllNeat(st, last)
  {
    var st' := AddBlocks(st, n);
    if AllNeat(st', last) {
      forall b | 0 <= b < |st.blocks| ensures Neat(st.blocks[b], last) { assert Neat(st'.blocks[b], last); }
    }
  }

  lemma BranchToNeat(st: State, dest: nat, last: bool)
    requires Valid(st)
    ensures AllNeat(BranchTo(st, dest), last) == AllNeat(st, last)
  {
    if !Terminated(st.blocks[st.cur]) {
      PushNeat(st, [Br(dest)], last);
    }
  }

  lemma EmptyOpen()
    ensures !Terminated([])
  {
  }

  /** Code that ends in a terminator and has no other. */
  predicate IsExit(code: seq<Instr>) {
    code != [] && Tidy(code) && IsTerminator(code[|code| - 1])
  }

  lemma ExitsAre(cond: Expr, forCond: Option<Expr>, inc: Option<Expr>, n: nat, m: nat)
    ensures IsExit(CondCode(cond) + [if cond.ty.NoValue? then Br(m) else CondBr(n, n + 1)])
    ensures IsExit(WhileCode(cond, n)) && IsExit(DoCode(cond, n)) && IsExit(ForCode(forCond, n))
    ensures IsExit(IncCode(inc) + [Br(n)]) && IsExit([Br(n)])
  {
  }

  lemma PushExitNeat(st: State, code: seq<Instr>, last: bool)
    requires Valid(st) && IsExit(code)
    ensures AllNeat(Push(st, code), last) == (AllNeat(st, last) && !Terminated(st.blocks[st.cur]))
  {
    PushNeat(st, code, last);
    LastTerminates(code);
  }

  lemma ActCodeOpen(acts: seq<Action>)
    ensures !Terminated(ActCode(acts)) && Tidy(ActCode(acts))
  {
  }

  /** What a statement does to the neatness of the blocks and to the state of the insertion block. */
  predicate NeatSpec(s: Stmt, st: State, st': State, last: bool)
    requires Valid(st) && Valid(st')
  {
    var before := Terminated(st.blocks[st.cur]);
    && AllNeat(st', last) == (AllNeat(st, last) && NoDeadCode(s, before, last))
    && Terminated(st'.blocks[st'.cur]) == Ends(s, before)
  }

  lemma {:induction false} EmitNeat(s: Stmt, st: State, last: bool)
    requires Valid(st) && Scoped(s, |st.brk| > 0)
    ensures NeatSpec(s, st, Emit(s, st), last)
    decreases s, 5
  {
    match s
    case If(_, _, _) => IfNeat(s, st, last);
    case While(_, _) => WhileNeat(s, st, last);
    case Do(_, _) => DoNeat(s, st, last);
    case For(_, _, _, _) => ForNeat(s, st, last);
    case Compound(body) => EmitAllNeat(body, st, last); InertAll(body, last);
    case _ => SimpleNeat(s, st, last);
  }

  lemma SimpleNeat(s: Stmt, st: State, last: bool)
    requires Valid(st) && Scoped(s, |st.brk| > 0)
    requires s.ExprStmt? || s.NullStmt? || s.DeclStmt? || s.Break? || s.Continue? || s.Return?
    ensures NeatSpec(s, st, Emit(s, st), last)
  {
    match s
    case ExprStmt(e) => PushNeat(st, [Act(Eval(e))], last);
    case NullStmt =>
    case DeclStmt(vars) =>
      ActCodeOpen(DeclActions(vars));
      if vars == [] {
        assert ActCode(DeclActions(vars)) == [];
        assert st.blocks[st.cur] + [] == st.blocks[st.cur];
        assert Push(st, []).blocks == st.blocks;
      } else {
        PushNeat(st, ActCode(DeclActions(vars)), last);
      }
    case Break => PushNeat(st, [Br(st.brk[|st.brk| - 1])], last); LastTerminates([Br(st.brk[|st.brk| - 1])]);
    case Continue => PushNeat(st, [Br(st.cont[|st.cont| - 1])], last); LastTerminates([Br(st.cont[|st.cont| - 1])]);
    case Return(result) => PushNeat(st, ReturnCode(result), last); LastTerminates(ReturnCode(result));
  }

  /** Behind a jump, a list has no dead code exactly when all of it is inert. */
  lemma {:induction false} InertAll(ss: seq<Stmt>, last: bool)
    ensures NoDeadCodeAll(ss, true, last) == (forall i | 0 <= i < |ss| :: Inert(ss[i], last))
    decreases ss, 1
  {
    if ss != [] {
      InertAll(ss[1..], last);
      if Inert(ss[0], last) { InertKeeps(ss[0], last); }
      assert (forall i | 0 <= i < |ss| :: Inert(ss[i], last))
        == (Inert(ss[0], last) && forall i | 0 <= i < |ss[1..]| :: Inert(ss[1..][i], last));
    }
  }

  lemma {:induction false} InertKeeps(s: Stmt, last: bool)
    requires Inert(s, last)
    ensures Ends(s, true) && !Ends(s, false)
    decreases s, 1
  {
    if s.Compound? { InertKeepsAll(s.body, last); }
  }

  lemma {:induction false} InertKeepsAll(ss: seq<Stmt>, last: bool)
    requires forall i | 0 <= i < |ss| :: Inert(ss[i], last)
    ensures EndsAll(ss, true) && !EndsAll(ss, false)
    decreases ss, 2
  {
    if ss != [] {
      InertKeeps(ss[0], last);
      assert forall i | 0 <= i < |ss[1..]| :: ss[1..][i] == ss[i + 1];
      InertKeepsAll(ss[1..], last);
    }
  }

  lemma {:induction false} EmitAllNeat(ss: seq<Stmt>, st: State, last: bool)
    requires Valid(st) && forall i | 0 <= i < |ss| :: Scoped(ss[i], |st.brk| > 0)
    ensures var st' := EmitAll(ss, st);
      var before := Terminated(st.blocks[st.cur]);
      && AllNeat(st', last) == (AllNeat(st, last) && NoDeadCodeAll(ss, before, last))
      && Terminated(st'.blocks[st'.cur]) == EndsAll(ss, before)
    decreases ss, 5
  {
    if ss != [] {
      EmitNeat(ss[0], st, last);
      EmitAllNeat(ss[1..], Emit(ss[0], st), last);
    }
  }

  lemma {:induction false} ArmNeat(s: Stmt, entry: nat, end: nat, st: State, last: bool)
    requires Valid(st) && entry < |st.blocks| && st.blocks[entry] == [] && Scoped(s, |st.brk| > 0)
    ensures AllNeat(EmitArm(s, entry, end, st), last) == (AllNeat(st, last) && NoDeadCode(s, false, last))
    decreases s, 6
  {
    var st0 := st.(cur := entry);
    EmitNeat(s, st0, last);
    BranchToNeat(Emit(s, st0), end, last);
  }

  lemma {:induction false} BodyNeat(s: Stmt, entry: nat, brk: nat, cont: nat, st: State, last: bool)
    requires Valid(st) && entry < |st.blocks| && brk < |st.blocks| && cont < |st.blocks|
    requires st.blocks[entry] == [] && Scoped(s, true)
    ensures AllNeat(EmitLoopBody(s, entry, brk, cont, st), last) == (AllNeat(st, last) && NoDeadCode(s, false, last))
    decreases s, 6
  {
    var st0 := EnterLoop(st, brk, cont).(cur := entry);
    EmitNeat(s, st0, last);
    BranchToNeat(Emit(s, st0), cont, last);
  }

  lemma {:induction false} IfNeat(s: Stmt, st: State, last: bool)
    requires s.If? && Valid(st) && Scoped(s, |st.brk| > 0)
    ensures NeatSpec(s, st, EmitIf(s, st), last)
    decreases s, 4
  {
    hide EmitArms, Neat, IfHead, Terminated;
    var n := |st.blocks|;
    var st1 := IfHead(s.cond, s.els.Some?, st);
    IfHeadNeat(s.cond, s.els.Some?, st, last);
    EmptyOpen();
    if !s.cond.ty.NoValue? {
      ArmsNeat(s, n, if s.els.Some? then n + 2 else n + 1, st1, last);
    }
  }

  lemma {:induction false} ArmsNeat(s: Stmt, n: nat, end: nat, st: State, last: bool)
    requires s.If? && Valid(st) && n < end < |st.blocks| && (s.els.Some? ==> n + 1 < end) && Scoped(s, |st.brk| > 0)
    requires forall b | n <= b <= end :: st.blocks[b] == []
    ensures AllNeat(EmitArms(s, n, end, st), last)
      == (AllNeat(st, last) && NoDeadCode(s.thn, false, last) && (s.els.Some? ==> NoDeadCode(s.els.value, false, last)))
    decreases s, 3
  {
    hide EmitArm, Neat, Terminated;
    ArmNeat(s.thn, n, end, st, last);
    if s.els.Some? {
      ArmNeat(s.els.value, n + 1, end, EmitArm(s.thn, n, end, st), last);
    }
  }

  lemma IfHeadNeat(cond: Expr, hasElse: bool, st: State, last: bool)
    requires Valid(st)
    ensures AllNeat(IfHead(cond, hasElse, st), last) == (AllNeat(st, last) && !Terminated(st.blocks[st.cur]))
    ensures forall b | |st.blocks| <= b < |IfHead(cond, hasElse, st).blocks| ::
            IfHead(cond, hasElse, st).blocks[b] == []
  {
    var n := |st.blocks|;
    var end := if hasElse then n + 2 else n + 1;
    AddBlocksNeat(st, if hasElse then 3 else 2, last);
    PushExitNeat(AddBlocks(st, if hasElse then 3 else 2),
                 CondCode(cond) + if cond.ty.NoValue? then [Br(end)] else [CondBr(n, n + 1)], last);
  }

  lemma WhileHeadNeat(cond: Expr, st: State, last: bool)
    requires Valid(st)
    ensures var n := |st.blocks|;
      var st1 := Push(WhileHead(st), WhileCode(cond, n));
      && AllNeat(st1, last) == (AllNeat(st, last) && !Terminated(st.blocks[st.cur]))
      && st1.blocks[n + 1] == [] && st1.blocks[n + 2] == []
  {
    hide WhileCode, Tidy, Terminated;
    var n := |st.blocks|;
    AddBlocksNeat(st, 3, last);
    EmptyOpen();
    ExitsAre(cond, None, None, n, n);
    PushExitNeat(AddBlocks(st, 3), [Br(n)], last);
    PushExitNeat(WhileHead(st), WhileCode(cond, n), last);
  }

  lemma {:induction false} WhileNeat(s: Stmt, st: State, last: bool)
    requires s.While? && Valid(st) && Scoped(s, |st.brk| > 0)
    ensures NeatSpec(s, st, EmitWhile(s, st), last)
    decreases s, 3
  {
    hide EmitLoopBody, WhileCode, WhileHead, Push, Tidy, Terminated;
    var n := |st.blocks|;
    EmptyOpen();
    WhileHeadNeat(s.cond, st, last);
    BodyNeat(s.loopBody, n + 1, n + 2, n, Push(WhileHead(st), WhileCode(s.cond, n)), last);
  }

  lemma DoHeadNeat(st: State, last: bool)
    requires Valid(st)
    ensures var n := |st.blocks|;
      var st1 := Push(AddBlocks(st, 3), [Br(n)]);
      && AllNeat(st1, last) == (AllNeat(st, last) && !Terminated(st.blocks[st.cur]))
      && st1.blocks[n] == [] && st1.blocks[n + 1] == [] && st1.blocks[n + 2] == []
  {
    hide Neat, Tidy, Terminated;
    AddBlocksNeat(st, 3, last);
    ExitsAre(Expr(0, Bit), None, None, |st.blocks|, 0);
    PushExitNeat(AddBlocks(st, 3), [Br(|st.blocks|)], last);
  }

  lemma {:induction false} DoNeat(s: Stmt, st: State, last: bool)
    requires s.Do? && Valid(st) && Scoped(s, |st.brk| > 0)
    ensures NeatSpec(s, st, EmitDo(s, st), last)
    decreases s, 3
  {
    hide EmitLoopBody, DoCode, Push, AddBlocks, Tidy, Terminated;
    EmptyOpen();
    DoHeadNeat(st, last);
    DoLoopNeat(s, |st.blocks|, Push(AddBlocks(st, 3), [Br(|st.blocks|)]), last);
  }

  lemma {:induction false} DoLoopNeat(s: Stmt, n: nat, st: State, last: bool)
    requires s.Do? && Valid(st) && n + 3 <= |st.blocks| && Scoped(s.loopBody, true)
    requires forall b | n <= b <= n + 2 :: st.blocks[b] == []
    ensures var st1 := EmitLoopBody(s.loopBody, n, n + 2, n + 1, st);
      var st2 := Push(st1.(cur := n + 1), DoCode(s.cond, n));
      AllNeat(st2, last) == (AllNeat(st, last) && NoDeadCode(s.loopBody, false, last)) && st2.blocks[n + 2] == []
    decreases s, 2
  {
    hide EmitLoopBody, DoCode, Tidy;
    EmptyOpen();
    BodyNeat(s.loopBody, n, n + 2, n + 1, st, last);
    ExitsAre(s.cond, None, None, n, n);
    PushExitNeat(EmitLoopBody(s.loopBody, n, n + 2, n + 1, st).(cur := n + 1), DoCode(s.cond, n), last);
  }

  lemma {:induction false} ForNeat(s: Stmt, st: State, last: bool)
    requires s.For? && Valid(st) && Scoped(s, |st.brk| > 0)
    ensures NeatSpec(s, st, EmitFor(s, st), last)
    decreases s, 3
  {
    hide EmitForLoop, Neat, IsExit, Emit, Terminated;
    var n := |st.blocks|;
    var sti := AddBlocks(st, 4);
    var st0 := Emit(s.init, sti);
    AddBlocksNeat(st, 4, last);
    EmptyOpen();
    EmitNeat(s.init, sti, last);
    ExitsAre(Expr(0, Bit), None, None, n, n);
    PushExitNeat(st0, [Br(n)], last);
    ForLoopNeat(s, n, Push(st0, [Br(n)]), last);
    if Terminated(st.blocks[st.cur]) {
      if Inert(s.init, last) { InertKeeps(s.init, last); }
      assert NoDeadCode(s.init, true, last) == Inert(s.init, last);
    }
  }

  lemma {:induction false} ForLoopNeat(s: Stmt, n: nat, st: State, last: bool)
    requires s.For? && Valid(st) && n + 4 <= |st.blocks| && Scoped(s.loopBody, true)
    requires forall b | n <= b <= n + 3 :: st.blocks[b] == []
    ensures AllNeat(EmitForLoop(s, n, st), last) == (AllNeat(st, last) && NoDeadCode(s.loopBody, false, last))
    ensures EmitForLoop(s, n, st).blocks[n + 3] == []
    decreases s, 2
  {
    hide EmitLoopBody, ForCode, Tidy, IncCode;
    var st1 := Push(st.(cur := n), ForCode(s.forCond, n));
    var st2 := EmitLoopBody(s.loopBody, n + 1, n + 3, n + 2, st1).(cur := n + 2);
    ExitsAre(Expr(0, Bit), s.forCond, s.inc, n, n);
    PushExitNeat(st.(cur := n), ForCode(s.forCond, n), last);
    BodyNeat(s.loopBody, n + 1, n + 3, n + 2, st1, last);
    PushExitNeat(st2, IncCode(s.inc) + [Br(n)], last);
  }
}
