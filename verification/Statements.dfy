/**
 The structured statements that the statement emitter lowers, and what they mean.

 An expression is an opaque action. The state of the program is the sequence of actions performed so far,
 its history; an oracle gives the value that the last action of a history produces. Any deterministic machine
 is an instance: its state is a function of its history.
 */
module Statements {
  import opened Wrappers

  /** What emitting an expression yields: an i1, a wider integer, or no value at all (an emission failure). */
  datatype ValueType = Bit | Wide | NoValue

  datatype Expr = Expr(id: nat, ty: ValueType)

  datatype VarInit = VarInit(variable: nat, init: Option<Expr>)

  datatype Stmt =
    | ExprStmt(e: Expr)
    | NullStmt
    | DeclStmt(vars: seq<VarInit>)
    | Compound(body: seq<Stmt>)
    | If(cond: Expr, thn: Stmt, els: Option<Stmt>)
    | While(cond: Expr, loopBody: Stmt)
    | Do(loopBody: Stmt, cond: Expr)
    | For(init: Stmt, forCond: Option<Expr>, inc: Option<Expr>, loopBody: Stmt)
    | Break
    | Continue
    | Return(result: Option<Expr>)

  /** The observable actions. Alloca and Store come from parameters and variable declarations. */
  datatype Action = Eval(e: Expr) | Alloca(variable: nat) | Store(variable: nat)

  type History = seq<Action>
  type Oracle = History -> int

  /** The value of an expression just evaluated, that is, of the last action of h; an i1 is 0 or 1. */
  function ValueOf(e: Expr, val: Oracle, h: History): int {
    if e.ty.Bit? then val(h) % 2 else val(h)
  }

  /** What a function hands back to its caller. */
  datatype Returned = Void | Value(v: int) | Placeholder | Undef

  datatype Outcome =
    | Normal(h: History)
    | Broke(h: History)
    | Continued(h: History)
    | Returns(h: History, r: Returned)
    | Timeout(h: History)

  /** Whether a condition selects the true side; a condition without a value selects the given default. */
  predicate Holds(e: Expr, val: Oracle, h: History, default: bool) {
    if e.ty.NoValue? then default else ValueOf(e, val, h) != 0
  }

  /** The straight-line actions of one declared variable: its stack slot, its initialiser, the store. */
  function VarActions(v: VarInit): seq<Action> {
    [Alloca(v.variable)]
    + match v.init
      case None => []
      case Some(e) => [Eval(e)] + if e.ty.NoValue? then [] else [Store(v.variable)]
  }

  function DeclActions(vars: seq<VarInit>): seq<Action> {
    if vars == [] then [] else VarActions(vars[0]) + DeclActions(vars[1..])
  }

  /** How many actions a declared variable takes. */
  function ActionCount(v: VarInit): nat {
    if v.init.None? then 1 else if v.init.value.ty.NoValue? then 2 else 3
  }

  /** Where the actions of the i-th variable start. */
  function Spot(vars: seq<VarInit>, i: nat): nat
    requires i <= |vars|
  {
    if i == 0 then 0 else Spot(vars, i - 1) + ActionCount(vars[i - 1])
  }

  /** The slot, then the initialiser if there is one, then the store if that has a value. */
  predicate DeclaredAt(acts: seq<Action>, at: nat, v: VarInit) {
    && at + ActionCount(v) <= |acts| && acts[at] == Alloca(v.variable)
    && (v.init.Some? ==> acts[at + 1] == Eval(v.init.value))
    && (v.init.Some? && !v.init.value.ty.NoValue? ==> acts[at + 2] == Store(v.variable))
  }

  /** The i-th variable is declared behind the ones before it. */
  predicate HasVariable(acts: seq<Action>, vars: seq<VarInit>, i: nat)
    requires i < |vars|
  {
    DeclaredAt(acts, Spot(vars, i), vars[i])
  }

  lemma {:induction false} SpotBehind(vars: seq<VarInit>, i: nat)
    requires i < |vars|
    ensures Spot(vars, i + 1) == ActionCount(vars[0]) + Spot(vars[1..], i)
  {
    if i > 0 {
      SpotBehind(vars, i - 1);
    }
  }

  lemma DeclaredLater(acts: seq<Action>, n: nat, at: nat, v: VarInit)
    requires n <= |acts| && DeclaredAt(acts[n..], at, v)
    ensures DeclaredAt(acts, n + at, v)
  {
    assert acts[n..][at] == acts[n + at];
    assert v.init.Some? ==> acts[n + (at + 1)] == acts[n..][at + 1];
    assert v.init.Some? && !v.init.value.ty.NoValue? ==> acts[n + (at + 2)] == acts[n..][at + 2];
  }

  lemma DeclActionsSplit(vars: seq<VarInit>)
    requires vars != []
    ensures var acts, n := DeclActions(vars), ActionCount(vars[0]);
      |acts| == n + |DeclActions(vars[1..])| && acts[n..] == DeclActions(vars[1..]) && DeclaredAt(acts, 0, vars[0])
  {
    assert |VarActions(vars[0])| == ActionCount(vars[0]);
  }

  /** A declaration is the actions of its variables in order, and nothing else. */
  lemma {:induction false} DeclActionsAre(vars: seq<VarInit>)
    ensures |DeclActions(vars)| == Spot(vars, |vars|)
    ensures forall i | 0 <= i < |vars| :: HasVariable(DeclActions(vars), vars, i)
  {
    if vars != [] {
      var acts, n := DeclActions(vars), ActionCount(vars[0]);
      DeclActionsAre(vars[1..]);
      DeclActionsSplit(vars);
      SpotBehind(vars, |vars| - 1);
      hide DeclActions, DeclaredAt, ActionCount, Spot;
      forall i | 0 <= i < |vars| ensures HasVariable(acts, vars, i) {
        FirstSpot(vars);
        if i > 0 {
          SpotBehind(vars, i - 1);
          assert HasVariable(acts[n..], vars[1..], i - 1);
          DeclaredLater(acts, n, Spot(vars[1..], i - 1), vars[i]);
        }
      }
    }
  }

  lemma FirstSpot(vars: seq<VarInit>)
    ensures Spot(vars, 0) == 0
  {
  }

  function ReturnOf(result: Option<Expr>, val: Oracle, h: History): Outcome {
    match result
    case None => Returns(h, Void)
    case Some(e) =>
      var h1 := h + [Eval(e)];
      Returns(h1, if e.ty.NoValue? then Placeholder else Value(ValueOf(e, val, h1)))
  }

  /** Big-step meaning of a statement; each loop iteration spends one unit of fuel. */
  function Exec(s: Stmt, val: Oracle, h: History, fuel: nat): Outcome
    decreases fuel, s, 0
  {
    match s
    case ExprStmt(e) => Normal(h + [Eval(e)])
    case NullStmt => Normal(h)
    case DeclStmt(vars) => Normal(h + DeclActions(vars))
    case Compound(body) => ExecAll(body, val, h, fuel)
    case If(cond, thn, els) =>
      var h1 := h + [Eval(cond)];
      // A condition that yields no value skips both branches.
      if cond.ty.NoValue? then Normal(h1)
      else if Holds(cond, val, h1, false) then Exec(thn, val, h1, fuel)
      else (match els case None => Normal(h1) case Some(e) => Exec(e, val, h1, fuel))
    case While(cond, body) => ExecWhile(s, val, h, fuel)
    case Do(body, cond) => ExecDo(s, val, h, fuel)
    case For(init, cond, inc, body) =>
      var o := Exec(init, val, h, fuel);
      if o.Normal? then ExecFor(s, val, o.h, fuel) else o
    case Break => Broke(h)
    case Continue => Continued(h)
    case Return(result) => ReturnOf(result, val, h)
  }

  function ExecAll(ss: seq<Stmt>, val: Oracle, h: History, fuel: nat): Outcome
    decreases fuel, ss, 1
  {
    if ss == [] then Normal(h)
    else
      var o := Exec(ss[0], val, h, fuel);
      if o.Normal? then ExecAll(ss[1..], val, o.h, fuel) else o
  }

  function ExecWhile(s: Stmt, val: Oracle, h: History, fuel: nat): Outcome
    requires s.While?
    decreases fuel, s.loopBody, 2
  {
    if fuel == 0 then Timeout(h)
    else
      var h1 := h + [Eval(s.cond)];
      if !Holds(s.cond, val, h1, false) then Normal(h1)
      else
        var o := Exec(s.loopBody, val, h1, fuel);
        match o
        case Broke(h2) => Normal(h2)
        case Normal(h2) => ExecWhile(s, val, h2, fuel - 1)
        case Continued(h2) => ExecWhile(s, val, h2, fuel - 1)
        case _ => o
  }

  function ExecDo(s: Stmt, val: Oracle, h: History, fuel: nat): Outcome
    requires s.Do?
    decreases fuel, s.loopBody, 2
  {
    if fuel == 0 then Timeout(h)
    else
      var o := Exec(s.loopBody, val, h, fuel);
      match o
      case Broke(h2) => Normal(h2)
      case Returns(_, _) => o
      case Timeout(_) => o
      case _ =>
        var h1 := o.h + [Eval(s.cond)];
        if Holds(s.cond, val, h1, false) then ExecDo(s, val, h1, fuel - 1) else Normal(h1)
  }

  /** The loop of a for statement, its initialisation done. A condition without a value counts as true. */
  function ExecFor(s: Stmt, val: Oracle, h: History, fuel: nat): Outcome
    requires s.For?
    decreases fuel, s.loopBody, 2
  {
    if fuel == 0 then Timeout(h)
    else
      var h1 := if s.forCond.Some? then h + [Eval(s.forCond.value)] else h;
      if s.forCond.Some? && !Holds(s.forCond.value, val, h1, true) then Normal(h1)
      else
        var o := Exec(s.loopBody, val, h1, fuel);
        match o
        case Broke(h2) => Normal(h2)
        case Returns(_, _) => o
        case Timeout(_) => o
        case _ => ExecFor(s, val, if s.inc.Some? then o.h + [Eval(s.inc.value)] else o.h, fuel - 1)
  }

  /** break and continue occur only inside loops. */
  predicate Scoped(s: Stmt, inLoop: bool) {
    match s
    case Compound(body) => forall i | 0 <= i < |body| :: Scoped(body[i], inLoop)
    case If(_, thn, els) => Scoped(thn, inLoop) && (els.Some? ==> Scoped(els.value, inLoop))
    case While(_, body) => Scoped(body, true)
    case Do(body, _) => Scoped(body, true)
    case For(init, _, _, body) => Scoped(init, inLoop) && Scoped(body, true)
    case Break => inLoop
    case Continue => inLoop
    case _ => true
  }

  datatype Function = Function(params: seq<nat>, body: seq<Stmt>, isVoid: bool)

  datatype Completion = Finished(h: History, r: Returned) | Running(h: History)

  /** Parameters are spilled to stack slots before the body runs. */
  function ParamActions(params: seq<nat>): seq<Action> {
    if params == [] then [] else [Alloca(params[0]), Store(params[0])] + ParamActions(params[1..])
  }

  /** For each parameter in order its slot and its store. */
  lemma {:induction false} ParamActionsAre(params: seq<nat>)
    ensures |ParamActions(params)| == 2 * |params|
    ensures forall i | 0 <= i < |params| ::
      ParamActions(params)[2 * i] == Alloca(params[i]) && ParamActions(params)[2 * i + 1] == Store(params[i])
  {
    if params != [] {
      ParamActionsAre(params[1..]);
    }
  }

  /** Meaning of a function: a body that falls off its end returns void, or an undefined value. */
  function Call(f: Function, val: Oracle, fuel: nat): Completion {
    match ExecAll(f.body, val, ParamActions(f.params), fuel)
    case Returns(h, r) => Finished(h, r)
    case Timeout(h) => Running(h)
    case o => Finished(o.h, if f.isVoid then Void else Undef)
  }
}
