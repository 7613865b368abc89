/** Which blocks the statements with control flow add, what their branches are, and where emission goes on. Block
  * numbers count from n, the number of blocks before. */
module BlockLayout {
  import opened Wrappers
  import opened Statements
  import opened Cfg
  import opened Lowering

  /** The evaluation of a condition, with a comparison with zero if it is wider than a bit. */
  predicate Tests(code: seq<Instr>, e: Expr) {
    match e.ty
    case Wide => code == [Act(Eval(e)), ToBool]
    case _ => code == [Act(Eval(e))]
  }

  /** b continues b0 with a test and the branch on it, or the branch for a condition that yields no value. */
  ghost predicate TestsThen(b0: Block, b: Block, e: Expr, t: nat, f: nat, failed: nat) {
    exists code :: Tests(code, e) && b == b0 + code + [if e.ty.NoValue? then Br(failed) else CondBr(t, f)]
  }

  lemma TestCode(b0: Block, e: Expr, i: Instr)
    ensures Tests(CondCode(e), e) && b0 + (CondCode(e) + [i]) == b0 + CondCode(e) + [i]
  {
  }

  /** then is n, else n + 1, and the end comes last. */
  lemma IfBlocks(s: Stmt, st: State)
    requires Valid(st) && s.If?
    ensures var n, end := |st.blocks|, |st.blocks| + if s.els.Some? then 2 else 1;
      var st' := EmitIf(s, st);
      end < |st'.blocks| && st'.cur == end && st'.blocks[end] == []
      && TestsThen(st.blocks[st.cur], st'.blocks[st.cur], s.cond, n, n + 1, end)
  {
    hide EmitArms, CondCode;
    var n := |st.blocks|;
    var head := IfHead(s.cond, s.els.Some?, st);
    var end := n + if s.els.Some? then 2 else 1;
    TestCode(st.blocks[st.cur], s.cond, if s.cond.ty.NoValue? then Br(end) else CondBr(n, n + 1));
    assert head.blocks[end] == [];
  }

  /** The condition is n, the body n + 1, the end n + 2. */
  lemma WhileBlocks(s: Stmt, st: State)
    requires Valid(st) && s.While?
    ensures var n, st' := |st.blocks|, EmitWhile(s, st);
      n + 2 < |st'.blocks| && st'.cur == n + 2 && st'.blocks[n + 2] == []
      && st'.blocks[st.cur] == st.blocks[st.cur] + [Br(n)]
      && TestsThen([], st'.blocks[n], s.cond, n + 1, n + 2, n + 2)
  {
    hide EmitLoopBody, CondCode;
    var n := |st.blocks|;
    var st1 := Push(WhileHead(st), WhileCode(s.cond, n));
    TestCode([], s.cond, if s.cond.ty.NoValue? then Br(n + 2) else CondBr(n + 1, n + 2));
    assert [] + WhileCode(s.cond, n)
           == [] + CondCode(s.cond) + [if s.cond.ty.NoValue? then Br(n + 2) else CondBr(n + 1, n + 2)];
    assert st1.blocks[n] == [] + WhileCode(s.cond, n);
  }

  /** The body is n, the condition n + 1, the end n + 2. */
  lemma DoBlocks(s: Stmt, st: State)
    requires Valid(st) && s.Do?
    ensures var n, st' := |st.blocks|, EmitDo(s, st);
      n + 2 < |st'.blocks| && st'.cur == n + 2 && st'.blocks[n + 2] == []
      && st'.blocks[st.cur] == st.blocks[st.cur] + [Br(n)]
      && TestsThen([], st'.blocks[n + 1], s.cond, n, n + 2, n + 2)
  {
    hide EmitLoopBody, CondCode;
    var n := |st.blocks|;
    var st0 := Push(AddBlocks(st, 3), [Br(n)]);
    var st1 := EmitLoopBody(s.loopBody, n, n + 2, n + 1, st0);
    assert st1.blocks[n + 1] == [] && st1.blocks[n + 2] == [];
    TestCode([], s.cond, if s.cond.ty.NoValue? then Br(n + 2) else CondBr(n, n + 2));
    assert EmitDo(s, st).blocks[n + 1] == [] + DoCode(s.cond, n);
  }

  /** The condition is n, the body n + 1, the increment n + 2, the end n + 3. A loop without a condition goes on to its
    * body, and so does one whose condition yields no value. */
  lemma ForBlocks(s: Stmt, st: State)
    requires Valid(st) && s.For?
    ensures var n, st' := |st.blocks|, EmitFor(s, st);
      n + 3 < |st'.blocks| && st'.cur == n + 3 && st'.blocks[n + 3] == []
      && (if s.forCond.None? then st'.blocks[n] == [Br(n + 1)]
          else TestsThen([], st'.blocks[n], s.forCond.value, n + 1, n + 3, n + 1))
      && st'.blocks[n + 2] == (if s.inc.None? then [] else [Act(Eval(s.inc.value))]) + [Br(n)]
  {
    hide EmitLoopBody, CondCode, Emit;
    var n := |st.blocks|;
    var st0 := Push(Emit(s.init, AddBlocks(st, 4)), [Br(n)]);
    assert forall b | n <= b <= n + 3 :: AddBlocks(st, 4).blocks[b] == [];
    ForLoopBlocks(s, n, st0);
  }

  lemma ForLoopBlocks(s: Stmt, n: nat, st: State)
    requires Valid(st) && s.For? && n + 4 <= |st.blocks| && forall b | n <= b <= n + 3 :: st.blocks[b] == []
    ensures var st' := EmitForLoop(s, n, st);
      n + 3 < |st'.blocks| && st'.cur == n + 3 && st'.blocks[n + 3] == []
      && (if s.forCond.None? then st'.blocks[n] == [Br(n + 1)]
          else TestsThen([], st'.blocks[n], s.forCond.value, n + 1, n + 3, n + 1))
      && st'.blocks[n + 2] == (if s.inc.None? then [] else [Act(Eval(s.inc.value))]) + [Br(n)]
  {
    hide EmitLoopBody, CondCode;
    var st1 := Push(st.(cur := n), ForCode(s.forCond, n));
    var st2 := EmitLoopBody(s.loopBody, n + 1, n + 3, n + 2, st1);
    assert st2.blocks[n] == [] + ForCode(s.forCond, n) && st2.blocks[n + 2] == [] && st2.blocks[n + 3] == [];
    if s.forCond.Some? {
      var e := s.forCond.value;
      TestCode([], e, if e.ty.NoValue? then Br(n + 1) else CondBr(n + 1, n + 3));
    }
    assert EmitForLoop(s, n, st).blocks[n + 2] == [] + (IncCode(s.inc) + [Br(n)]);
  }
}
