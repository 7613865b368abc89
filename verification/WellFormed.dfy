/** The shape of the emitted blocks: when each has a terminator, and when the verifier accepts all of them. */
module WellFormed {
  import opened Wrappers
  import opened Statements
  import opened Cfg
  import opened Lowering

  /** Some if in s has a condition whose emission fails; its branches are then created but never filled. */
  predicate HasFailedIf(s: Stmt) {
    match s
    case Compound(body) => exists i | 0 <= i < |body| :: HasFailedIf(body[i])
    case If(cond, thn, els) => cond.ty.NoValue? || HasFailedIf(thn) || (els.Some? && HasFailedIf(els.value))
    case While(_, body) => HasFailedIf(body)
    case Do(body, _) => HasFailedIf(body)
    case For(init, _, _, body) => HasFailedIf(init) || HasFailedIf(body)
    case _ => false
  }

  predicate Closed(b: Block, mayBeEmpty: bool) {
    Terminated(b) || (mayBeEmpty && b == [])
  }

  /** Every block added between st and st' other than the insertion block is closed, and so is one left behind. */
  predicate ClosedSince(st: State, st': State, mayBeEmpty: bool) {
    && (forall b | |st.blocks| <= b < |st'.blocks| && b != st'.cur :: Closed(st'.blocks[b], mayBeEmpty))
    && (st'.cur != st.cur && st.cur < |st'.blocks| ==> Terminated(st'.blocks[st.cur]))
  }

  lemma PrefixTerminated(b: Block, b': Block)
    requires b <= b' && Terminated(b)
    ensures Terminated(b')
  {
    var i :| 0 <= i < |b| && IsTerminator(b[i]);
    assert b'[i] == b[i];
  }

  lemma AppendTerminated(b: Block, code: seq<Instr>)
    ensures Terminated(b + code) == (Terminated(b) || Terminated(code))
  {
    if Terminated(b) {
      PrefixTerminated(b, b + code);
    }
    if Terminated(code) {
      var i :| 0 <= i < |code| && IsTerminator(code[i]);
      assert (b + code)[|b| + i] == code[i];
    }
  }

  lemma LastTerminates(code: seq<Instr>)
    requires |code| > 0 && IsTerminator(code[|code| - 1])
    ensures Terminated(code)
  {
  }

  lemma BranchToTerminates(st: State, dest: nat)
    requires Valid(st)
    ensures Terminated(BranchTo(st, dest).blocks[st.cur])
  {
    LastTerminates([Br(dest)]);
    AppendTerminated(st.blocks[st.cur], [Br(dest)]);
  }

  lemma PushTerminates(st: State, code: seq<Instr>)
    requires Valid(st) && |code| > 0 && IsTerminator(code[|code| - 1])
    ensures Terminated(Push(st, code).blocks[st.cur])
  {
    LastTerminates(code);
    AppendTerminated(st.blocks[st.cur], code);
  }

  lemma {:induction false} EmitCloses(s: Stmt, st: State, e: bool)
    requires Valid(st) && (HasFailedIf(s) ==> e)
    ensures ClosedSince(st, Emit(s, st), e)
    decreases s, 3
  {
    hide EmitAll, EmitIf, EmitWhile, EmitDo, EmitFor, ActCode, DeclActions, ReturnCode;
    match s
    case Compound(body) => EmitAllCloses(body, st, e);
    case If(_, _, _) => IfCloses(s, st, e);
    case While(_, _) => WhileCloses(s, st, e);
    case Do(_, _) => DoCloses(s, st, e);
    case For(_, _, _, _) => ForCloses(s, st, e);
    case _ =>
  }

  lemma {:induction false} WhileCloses(s: Stmt, st: State, e: bool)
    requires s.While? && Valid(st) && (HasFailedIf(s) ==> e)
    ensures ClosedSince(st, EmitWhile(s, st), e)
    decreases s, 2
  {
    hide EmitLoopBody, CondCode;
    var n := |st.blocks|;
    PushTerminates(AddBlocks(st, 3), [Br(n)]);
    PushTerminates(WhileHead(st), WhileCode(s.cond, n));
    BodyCloses(s.loopBody, n + 1, n + 2, n, Push(WhileHead(st), WhileCode(s.cond, n)), e);
  }

  lemma {:induction false} DoCloses(s: Stmt, st: State, e: bool)
    requires s.Do? && Valid(st) && (HasFailedIf(s) ==> e)
    ensures ClosedSince(st, EmitDo(s, st), e)
    decreases s, 2
  {
    hide EmitLoopBody, DoCode, Terminated;
    var n := |st.blocks|;
    var st1 := Push(AddBlocks(st, 3), [Br(n)]);
    var st2 := EmitLoopBody(s.loopBody, n, n + 2, n + 1, st1);
    var st3 := Push(st2.(cur := n + 1), DoCode(s.cond, n));
    PushTerminates(AddBlocks(st, 3), [Br(n)]);
    BodyCloses(s.loopBody, n, n + 2, n + 1, st1, e);
    DoCodeEnds(s.cond, n);
    PushTerminates(st2.(cur := n + 1), DoCode(s.cond, n));
    assert forall b | 0 <= b < |st3.blocks| && b != n + 1 :: st3.blocks[b] == st2.blocks[b];
  }

  lemma DoCodeEnds(cond: Expr, n: nat)
    ensures var code := DoCode(cond, n); |code| > 0 && IsTerminator(code[|code| - 1])
  {
  }

  lemma {:induction false} ForCloses(s: Stmt, st: State, e: bool)
    requires s.For? && Valid(st) && (HasFailedIf(s) ==> e)
    ensures ClosedSince(st, EmitFor(s, st), e)
    decreases s, 2
  {
    hide EmitForLoop, Emit;
    var n := |st.blocks|;
    var sti := AddBlocks(st, 4);
    var st0 := Emit(s.init, sti);
    EmitCloses(s.init, sti, e);
    PushTerminates(st0, [Br(n)]);
    var st1 := Push(st0, [Br(n)]);
    ForLoopCloses(s, n, st1, e);
    var st2 := EmitForLoop(s, n, st1);
    forall b | n <= b < |st2.blocks| && b != st2.cur ensures Closed(st2.blocks[b], e) {
      if n + 4 <= b < |st1.blocks| {
        assert st2.blocks[b] == st1.blocks[b];
        assert b != st0.cur ==> st1.blocks[b] == st0.blocks[b];
      }
    }
    assert st2.blocks[st.cur] == st1.blocks[st.cur];
  }

  lemma {:induction false} EmitAllCloses(ss: seq<Stmt>, st: State, e: bool)
    requires Valid(st) && ((exists i | 0 <= i < |ss| :: HasFailedIf(ss[i])) ==> e)
    ensures ClosedSince(st, EmitAll(ss, st), e)
    decreases ss, 4
  {
    if ss != [] {
      var st1 := Emit(ss[0], st);
      var st2 := EmitAll(ss[1..], st1);
      EmitCloses(ss[0], st, e);
      EmitAllCloses(ss[1..], st1, e);
      forall b | |st.blocks| <= b < |st2.blocks| && b != st2.cur ensures Closed(st2.blocks[b], e) {
        if b < |st1.blocks| && b != st1.cur {
          assert st2.blocks[b] == st1.blocks[b];
        }
      }
      if st2.cur != st.cur && st1.cur != st.cur {
        assert st2.blocks[st.cur] == st1.blocks[st.cur];
      }
    }
  }

  /** A side of an if, or a loop body, leaves nothing open: its own block and all that it added are closed. */
  predicate AllClosedSince(entry: nat, st: State, st': State, e: bool) {
    && (forall b | |st.blocks| <= b < |st'.blocks| :: Closed(st'.blocks[b], e))
    && entry < |st'.blocks| && Terminated(st'.blocks[entry])
  }

  lemma {:induction false} ArmCloses(s: Stmt, entry: nat, end: nat, st: State, e: bool)
    requires Valid(st) && entry < |st.blocks| && (HasFailedIf(s) ==> e)
    ensures AllClosedSince(entry, st, EmitArm(s, entry, end, st), e)
    decreases s, 4
  {
    var st0 := st.(cur := entry);
    EmitCloses(s, st0, e);
    BranchToTerminates(Emit(s, st0), end);
  }

  lemma {:induction false} BodyCloses(s: Stmt, entry: nat, brk: nat, cont: nat, st: State, e: bool)
    requires Valid(st) && entry < |st.blocks| && brk < |st.blocks| && cont < |st.blocks| && (HasFailedIf(s) ==> e)
    ensures AllClosedSince(entry, st, EmitLoopBody(s, entry, brk, cont, st), e)
    decreases s, 4
  {
    var st0 := EnterLoop(st, brk, cont).(cur := entry);
    EmitCloses(s, st0, e);
    BranchToTerminates(Emit(s, st0), cont);
  }

  lemma {:induction false} IfCloses(s: Stmt, st: State, e: bool)
    requires s.If? && Valid(st) && (HasFailedIf(s) ==> e)
    ensures ClosedSince(st, EmitIf(s, st), e)
    decreases s, 2
  {
    hide EmitArm, CondCode, Terminated;
    var n := |st.blocks|;
    var end := if s.els.Some? then n + 2 else n + 1;
    var st1 := IfHead(s.cond, s.els.Some?, st);
    IfHeadTerminates(s.cond, s.els.Some?, st);
    if !s.cond.ty.NoValue? {
      var st2 := EmitArm(s.thn, n, end, st1);
      ArmCloses(s.thn, n, end, st1, e);
      if s.els.Some? {
        ArmCloses(s.els.value, n + 1, end, st2, e);
      }
    }
  }

  predicate ForClosedSince(n: nat, st: State, st': State, e: bool) {
    && (forall b | |st.blocks| <= b < |st'.blocks| :: Closed(st'.blocks[b], e))
    && (forall b | n <= b <= n + 2 && b < |st'.blocks| :: Terminated(st'.blocks[b]))
  }

  lemma IfHeadTerminates(cond: Expr, hasElse: bool, st: State)
    requires Valid(st)
    ensures Terminated(IfHead(cond, hasElse, st).blocks[st.cur])
  {
    var n := |st.blocks|;
    PushTerminates(AddBlocks(st, if hasElse then 3 else 2),
                   CondCode(cond) + if cond.ty.NoValue? then [Br(if hasElse then n + 2 else n + 1)]
                       else [CondBr(n, n + 1)]);
  }

  lemma {:induction false} ForLoopCloses(s: Stmt, n: nat, st: State, e: bool)
    requires s.For? && Valid(st) && n + 4 <= |st.blocks| && (HasFailedIf(s.loopBody) ==> e)
    ensures ForClosedSince(n, st, EmitForLoop(s, n, st), e)
    decreases s, 1
  {
    hide EmitLoopBody, CondCode;
    var st1 := Push(st.(cur := n), ForCode(s.forCond, n));
    PushTerminates(st.(cur := n), ForCode(s.forCond, n));
    var st2 := EmitLoopBody(s.loopBody, n + 1, n + 3, n + 2, st1);
    BodyCloses(s.loopBody, n + 1, n + 3, n + 2, st1, e);
    PushTerminates(st2.(cur := n + 2), IncCode(s.inc) + [Br(n)]);
  }

  /** Block b was added between st and st', is not the insertion block, and is empty. */
  predicate IsGap(b: nat, st: State, st': State) {
    |st.blocks| <= b < |st'.blocks| && b != st'.cur && st'.blocks[b] == []
  }

  lemma {:induction false} FailedIfLeavesGap(s: Stmt, st: State) returns (b: nat)
    requires Valid(st) && HasFailedIf(s)
    ensures IsGap(b, st, Emit(s, st))
    decreases s, 2
  {
    match s
    case Compound(body) => b := FailedIfLeavesGapAll(body, st);
    case If(_, _, _) => b := FailedIfLeavesGapIf(s, st);
    case While(_, _) => b := FailedIfLeavesGapWhile(s, st);
    case Do(_, _) => b := FailedIfLeavesGapDo(s, st);
    case For(_, _, _, _) => b := FailedIfLeavesGapFor(s, st);
  }

  lemma {:induction false} FailedIfLeavesGapWhile(s: Stmt, st: State) returns (b: nat)
    requires s.While? && Valid(st) && HasFailedIf(s)
    ensures IsGap(b, st, EmitWhile(s, st))
    decreases s, 1
  {
    hide EmitLoopBody, CondCode;
    var n := |st.blocks|;
    b := FailedIfLeavesGapBody(s.loopBody, n + 1, n + 2, n, Push(WhileHead(st), WhileCode(s.cond, n)));
  }

  lemma {:induction false} FailedIfLeavesGapDo(s: Stmt, st: State) returns (b: nat)
    requires s.Do? && Valid(st) && HasFailedIf(s)
    ensures IsGap(b, st, EmitDo(s, st))
    decreases s, 1
  {
    hide EmitLoopBody, CondCode;
    var n := |st.blocks|;
    b := FailedIfLeavesGapBody(s.loopBody, n, n + 2, n + 1, Push(AddBlocks(st, 3), [Br(n)]));
  }

  lemma {:induction false} FailedIfLeavesGapAll(ss: seq<Stmt>, st: State) returns (b: nat)
    requires Valid(st) && exists i | 0 <= i < |ss| :: HasFailedIf(ss[i])
    ensures IsGap(b, st, EmitAll(ss, st))
    decreases ss, 3
  {
    var st1 := Emit(ss[0], st);
    if HasFailedIf(ss[0]) {
      b := FailedIfLeavesGap(ss[0], st);
    } else {
      var i :| 0 <= i < |ss| && HasFailedIf(ss[i]);
      assert HasFailedIf(ss[1..][i - 1]);
      b := FailedIfLeavesGapAll(ss[1..], st1);
    }
  }

  lemma {:induction false} FailedIfLeavesGapIf(s: Stmt, st: State) returns (b: nat)
    requires s.If? && Valid(st) && HasFailedIf(s)
    ensures IsGap(b, st, EmitIf(s, st))
    decreases s, 1
  {
    hide EmitArm, CondCode;
    var n := |st.blocks|;
    var end := if s.els.Some? then n + 2 else n + 1;
    var st1 := IfHead(s.cond, s.els.Some?, st);
    if s.cond.ty.NoValue? {
      b := n;
    } else if HasFailedIf(s.thn) {
      b := FailedIfLeavesGapArm(s.thn, n, end, st1);
    } else {
      b := FailedIfLeavesGapArm(s.els.value, n + 1, end, EmitArm(s.thn, n, end, st1));
    }
  }

  lemma {:induction false} FailedIfLeavesGapArm(s: Stmt, entry: nat, end: nat, st: State) returns (b: nat)
    requires Valid(st) && entry < |st.blocks| && HasFailedIf(s)
    ensures var st' := EmitArm(s, entry, end, st);
      |st.blocks| <= b < |st'.blocks| && st'.blocks[b] == []
    decreases s, 3
  {
    b := FailedIfLeavesGap(s, st.(cur := entry));
  }

  lemma {:induction false} FailedIfLeavesGapBody(s: Stmt, entry: nat, brk: nat, cont: nat, st: State) returns (b: nat)
    requires Valid(st) && entry < |st.blocks| && brk < |st.blocks| && cont < |st.blocks| && HasFailedIf(s)
    ensures var st' := EmitLoopBody(s, entry, brk, cont, st);
      |st.blocks| <= b < |st'.blocks| && st'.blocks[b] == []
    decreases s, 3
  {
    b := FailedIfLeavesGap(s, EnterLoop(st, brk, cont).(cur := entry));
  }

  lemma {:induction false} FailedIfLeavesGapFor(s: Stmt, st: State) returns (b: nat)
    requires s.For? && Valid(st) && HasFailedIf(s)
    ensures IsGap(b, st, EmitFor(s, st))
    decreases s, 1
  {
    hide EmitLoopBody, CondCode, Emit;
    var n := |st.blocks|;
    var sti := AddBlocks(st, 4);
    var st0 := Emit(s.init, sti);
    var st1 := Push(st0, [Br(n)]);
    if HasFailedIf(s.init) {
      b := FailedIfLeavesGap(s.init, sti);
      assert st1.blocks[b] == [];
      assert EmitForLoop(s, n, st1).blocks[b] == st1.blocks[b];
    } else {
      var st2 := Push(st1.(cur := n), ForCode(s.forCond, n));
      b := FailedIfLeavesGapBody(s.loopBody, n + 1, n + 3, n + 2, st2);
    }
  }
}
