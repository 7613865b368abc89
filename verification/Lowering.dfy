/**
 The lowering of structured statements to basic blocks, as functions on the state that the emitter updates:
 the blocks of the function so far, the insertion block, and the two stacks of jump targets.
 The class Emitter in Emitter.dfy performs these updates in place.
 */
module Lowering {
  import opened Wrappers
  import opened Statements
  import opened Cfg

  datatype State = State(blocks: seq<Block>, cur: nat, brk: seq<nat>, cont: seq<nat>)

  predicate Valid(st: State) {
    && st.cur < |st.blocks|
    && |st.brk| == |st.cont|
    && (forall i | 0 <= i < |st.brk| :: st.brk[i] < |st.blocks|)
    && (forall i | 0 <= i < |st.cont| :: st.cont[i] < |st.blocks|)
  }

  /** From st to st', code was appended to block e, blocks were added, and no other block was touched. */
  predicate Fills(e: nat, st: State, st': State) {
    && Valid(st) && Valid(st') && e < |st.blocks|
    && st'.brk == st.brk && st'.cont == st.cont
    && |st.blocks| <= |st'.blocks|
    && (forall b | 0 <= b < |st.blocks| :: b != e ==> st'.blocks[b] == st.blocks[b])
    && st.blocks[e] <= st'.blocks[e]
  }

  /** What emitting a statement may do: fill the insertion block, and move on to an added block. */
  predicate Grows(st: State, st': State) {
    && Fills(st.cur, st, st')
    && (st'.cur == st.cur || |st.blocks| <= st'.cur)
  }

  function Push(st: State, code: seq<Instr>): (st': State)
    requires Valid(st)
    ensures Grows(st, st') && st'.cur == st.cur && |st'.blocks| == |st.blocks|
  {
    st.(blocks := st.blocks[st.cur := st.blocks[st.cur] + code])
  }

  function AddBlocks(st: State, n: nat): (st': State)
    requires Valid(st)
    ensures Grows(st, st') && st'.cur == st.cur && |st'.blocks| == |st.blocks| + n
  {
    st.(blocks := st.blocks + seq(n, _ => []))
  }

  /** Branch to dest unless the insertion block already has a terminator. */
  function BranchTo(st: State, dest: nat): (st': State)
    requires Valid(st)
    ensures Grows(st, st')
  {
    if Terminated(st.blocks[st.cur]) then st else Push(st, [Br(dest)])
  }

  function CondCode(e: Expr): seq<Instr> {
    [Act(Eval(e))] + if e.ty.Wide? then [ToBool] else []
  }

  function ActCode(actions: seq<Action>): seq<Instr> {
    seq(|actions|, i requires 0 <= i < |actions| => Act(actions[i]))
  }

  function ReturnCode(result: Option<Expr>): seq<Instr> {
    match result
    case None => [RetVoid]
    case Some(e) => [Act(Eval(e)), if e.ty.NoValue? then RetPlaceholder else RetValue]
  }

  function EnterLoop(st: State, brk: nat, cont: nat): (st': State)
    requires Valid(st) && brk < |st.blocks| && cont < |st.blocks|
    ensures Valid(st')
  {
    st.(brk := st.brk + [brk], cont := st.cont + [cont])
  }

  function LeaveLoop(st: State): (st': State)
    requires Valid(st) && |st.brk| > 0
    ensures Valid(st')
  {
    st.(brk := st.brk[..|st.brk| - 1], cont := st.cont[..|st.cont| - 1])
  }

  function Emit(s: Stmt, st: State): (st': State)
    requires Valid(st)
    ensures Grows(st, st')
    decreases s, 3
  {
    match s
    case ExprStmt(e) => Push(st, [Act(Eval(e))])
    case NullStmt => st
    case DeclStmt(vars) => Push(st, ActCode(DeclActions(vars)))
    case Compound(body) => EmitAll(body, st)
    case If(_, _, _) => EmitIf(s, st)
    case While(_, _) => EmitWhile(s, st)
    case Do(_, _) => EmitDo(s, st)
    case For(_, _, _, _) => EmitFor(s, st)
    case Break => if |st.brk| == 0 then st else Push(st, [Br(st.brk[|st.brk| - 1])])
    case Continue => if |st.cont| == 0 then st else Push(st, [Br(st.cont[|st.cont| - 1])])
    case Return(result) => Push(st, ReturnCode(result))
  }

  /** One side of an if: its block is entry, and it falls through to end. */
  function EmitArm(s: Stmt, entry: nat, end: nat, st: State): (st': State)
    requires Valid(st) && entry < |st.blocks|
    ensures Fills(entry, st, st')
    decreases s, 4
  {
    BranchTo(Emit(s, st.(cur := entry)), end)
  }

  /** The body of a loop, in block entry, with the loop's jump targets pushed and then popped. */
  function EmitLoopBody(s: Stmt, entry: nat, brk: nat, cont: nat, st: State): (st': State)
    requires Valid(st) && entry < |st.blocks| && brk < |st.blocks| && cont < |st.blocks|
    ensures Fills(entry, st, st')
    decreases s, 4
  {
    LeaveLoop(BranchTo(Emit(s, EnterLoop(st, brk, cont).(cur := entry)), cont))
  }

  function EmitIf(s: Stmt, st: State): (st': State)
    requires Valid(st) && s.If?
    ensures Grows(st, st')
    decreases s, 1
  {
    var n := |st.blocks|;
    var end := if s.els.Some? then n + 2 else n + 1;
    var st1 := IfHead(s.cond, s.els.Some?, st);
    if s.cond.ty.NoValue? then st1.(cur := end)
    else EmitArms(s, n, end, st1).(cur := end)
  }

  function EmitArms(s: Stmt, n: nat, end: nat, st: State): (st': State)
    requires Valid(st) && s.If? && n < end < |st.blocks| && (s.els.Some? ==> n + 1 < end)
    ensures Valid(st') && st'.brk == st.brk && st'.cont == st.cont
    ensures |st.blocks| <= |st'.blocks|
    ensures forall b | 0 <= b < |st.blocks| :: !(n <= b < end) ==> st'.blocks[b] == st.blocks[b]
    decreases s, 0
  {
    var st1 := EmitArm(s.thn, n, end, st);
    if s.els.Some? then EmitArm(s.els.value, n + 1, end, st1) else st1
  }

  function EmitWhile(s: Stmt, st: State): (st': State)
    requires Valid(st) && s.While?
    ensures Grows(st, st')
    decreases s, 1
  {
    var n := |st.blocks|;
    var st1 := Push(WhileHead(st), WhileCode(s.cond, n));
    EmitLoopBody(s.loopBody, n + 1, n + 2, n, st1).(cur := n + 2)
  }

  function EmitDo(s: Stmt, st: State): (st': State)
    requires Valid(st) && s.Do?
    ensures Grows(st, st')
    decreases s, 1
  {
    var n := |st.blocks|;
    var st1 := EmitLoopBody(s.loopBody, n, n + 2, n + 1, Push(AddBlocks(st, 3), [Br(n)]));
    Push(st1.(cur := n + 1), DoCode(s.cond, n)).(cur := n + 2)
  }

  function EmitFor(s: Stmt, st: State): (st': State)
    requires Valid(st) && s.For?
    ensures Grows(st, st')
    decreases s, 1
  {
    var n := |st.blocks|;
    var st0 := Emit(s.init, AddBlocks(st, 4));
    EmitForLoop(s, n, Push(st0, [Br(n)]))
  }

  /** The four blocks n to n + 3 of a for loop, its initialisation emitted. */
  function EmitForLoop(s: Stmt, n: nat, st: State): (st': State)
    requires Valid(st) && s.For? && n + 4 <= |st.blocks|
    ensures Valid(st') && st'.brk == st.brk && st'.cont == st.cont && st'.cur == n + 3
    ensures |st.blocks| <= |st'.blocks|
    ensures forall b | 0 <= b < |st.blocks| :: !(n <= b <= n + 2) ==> st'.blocks[b] == st.blocks[b]
    decreases s, 0
  {
    var st1 := Push(st.(cur := n), ForCode(s.forCond, n));
    var st2 := EmitLoopBody(s.loopBody, n + 1, n + 3, n + 2, st1);
    Push(st2.(cur := n + 2), IncCode(s.inc) + [Br(n)]).(cur := n + 3)
  }

  function EmitAll(ss: seq<Stmt>, st: State): (st': State)
    requires Valid(st)
    ensures Grows(st, st')
    decreases ss, 1
  {
    if ss == [] then st else EmitAll(ss[1..], Emit(ss[0], st))
  }

  /** The blocks of an if and the branch that ends the block before it. */
  function IfHead(cond: Expr, hasElse: bool, st: State): (st': State)
    requires Valid(st)
    ensures Grows(st, st') && |st'.blocks| == |st.blocks| + if hasElse then 3 else 2
  {
    var n := |st.blocks|;
    var end := if hasElse then n + 2 else n + 1;
    Push(AddBlocks(st, if hasElse then 3 else 2),
         CondCode(cond) + if cond.ty.NoValue? then [Br(end)] else [CondBr(n, n + 1)])
  }

  /** The blocks of a while and the branch into it; its condition block is filled next. */
  function WhileHead(st: State): (st': State)
    requires Valid(st)
    ensures Fills(st.cur, st, st') && |st'.blocks| == |st.blocks| + 3 && st'.cur == |st.blocks|
  {
    Push(AddBlocks(st, 3), [Br(|st.blocks|)]).(cur := |st.blocks|)
  }

  function WhileCode(cond: Expr, n: nat): seq<Instr> {
    CondCode(cond) + [if cond.ty.NoValue? then Br(n + 2) else CondBr(n + 1, n + 2)]
  }

  function DoCode(cond: Expr, n: nat): seq<Instr> {
    CondCode(cond) + [if cond.ty.NoValue? then Br(n + 2) else CondBr(n, n + 2)]
  }

  function ForCode(cond: Option<Expr>, n: nat): seq<Instr> {
    if cond.None? then [Br(n + 1)]
    else CondCode(cond.value) + [if cond.value.ty.NoValue? then Br(n + 1) else CondBr(n + 1, n + 3)]
  }

  function IncCode(inc: Option<Expr>): seq<Instr> {
    if inc.None? then [] else [Act(Eval(inc.value))]
  }

  /** A whole function: parameter slots, body, and a return if the last insertion block lacks a terminator. */
  function EmitFunction(f: Function): State {
    var st1 := Push(State([[]], 0, [], []), ActCode(ParamActions(f.params)));
    var st2 := EmitAll(f.body, st1);
    if Terminated(st2.blocks[st2.cur]) then st2 else Push(st2, [if f.isVoid then RetVoid else RetUndef])
  }
}
