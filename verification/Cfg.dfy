/**
 Basic blocks, their execution, and the structural checks that the verifier makes of a block.
 A block is a list of instructions; control leaves it at its first terminator.
 */
module Cfg {
  import opened Statements

  /**
   Each instruction leaves a result behind; a branch or a return uses the result of the instruction just
   before it, because the emitter always consumes a value right after producing it.
   */
  datatype Instr =
    | Act(a: Action)
    | ToBool
    | Br(dest: nat)
    | CondBr(ifTrue: nat, ifFalse: nat)
    | RetValue
    | RetVoid
    | RetPlaceholder
    | RetUndef

  type Block = seq<Instr>

  predicate IsTerminator(i: Instr) {
    !i.Act? && !i.ToBool?
  }

  predicate Terminated(b: Block) {
    exists i | 0 <= i < |b| :: IsTerminator(b[i])
  }

  /** The search of a block for its terminator: the first one wins. */
  method GetTerminator(b: Block) returns (found: bool, at: nat)
    ensures found == Terminated(b)
    ensures found ==> at < |b| && IsTerminator(b[at]) && !Terminated(b[..at])
  {
    at := 0;
    while at < |b|
      invariant at <= |b|
      invariant !Terminated(b[..at])
    {
      if IsTerminator(b[at]) {
        return true, at;
      }
      assert b[..at + 1] == b[..at] + [b[at]];
      at := at + 1;
    }
    assert b[..at] == b;
    found := false;
  }

  /** At most one terminator, and nothing after it. */
  predicate Tidy(b: Block) {
    forall i | 0 <= i < |b| - 1 :: !IsTerminator(b[i])
  }

  /** What the verifier asks of a block: empty, or one terminator, which is last. */
  predicate Accepted(b: Block) {
    b == [] || (Tidy(b) && IsTerminator(b[|b| - 1]))
  }

  /** The structural part of the verifier's check of one block; phi instructions are never emitted. */
  method VerifyBasicBlock(b: Block) returns (ok: bool)
    ensures ok == Accepted(b)
  {
    var hasTerm, _ := GetTerminator(b);
    ok := |b| == 0 || hasTerm;
    var seenTerm := false;
    var i := 0;
    while i < |b|
      invariant i <= |b|
      invariant seenTerm == Terminated(b[..i])
      invariant ok ==> |b| == 0 || hasTerm
      invariant ok ==> forall j, k | 0 <= j < k < i :: !(IsTerminator(b[j]) && IsTerminator(b[k]))
      invariant !ok ==> (b != [] && !hasTerm) || !Tidy(b)
    {
      assert b[..i + 1] == b[..i] + [b[i]];
      if IsTerminator(b[i]) {
        if seenTerm {
          ok := false;
          ghost var j :| 0 <= j < i && IsTerminator(b[..i][j]);
          assert IsTerminator(b[j]);
        }
        seenTerm := true;
      }
      i := i + 1;
    }
    assert b[..i] == b;
    if seenTerm && |b| > 0 && !IsTerminator(b[|b| - 1]) {
      ok := false;
    }
  }

  /** A configuration of the machine: about to run instruction i of block b, or finished. */
  datatype Config =
    | At(b: nat, i: nat, h: History, last: int)
    | Halted(h: History, r: Returned)
    | Stuck

  function Effect(a: Action, val: Oracle, h: History): int {
    if a.Eval? then ValueOf(a.e, val, h) else val(h)
  }

  function Step(F: seq<Block>, val: Oracle, c: Config): Config {
    match c
    case Halted(_, _) => c
    case Stuck => c
    case At(b, i, h, last) =>
      if b >= |F| || i >= |F[b]| then Stuck
      else
        match F[b][i]
        case Act(a) => var h1 := h + [a]; At(b, i + 1, h1, Effect(a, val, h1))
        case ToBool => At(b, i + 1, h, if last != 0 then 1 else 0)
        case Br(t) => At(t, 0, h, last)
        case CondBr(t, f) => At(if last == 1 then t else f, 0, h, last)
        case RetValue => Halted(h, Value(last))
        case RetVoid => Halted(h, Void)
        case RetPlaceholder => Halted(h, Placeholder)
        case RetUndef => Halted(h, Undef)
  }

  function Run(F: seq<Block>, val: Oracle, c: Config, n: nat): Config
    decreases n
  {
    if n == 0 then c else Run(F, val, Step(F, val, c), n - 1)
  }

  lemma {:induction false} RunTrans(F: seq<Block>, val: Oracle, c: Config, m: nat, n: nat)
    ensures Run(F, val, c, m + n) == Run(F, val, Run(F, val, c, m), n)
    decreases m
  {
    if m > 0 {
      RunTrans(F, val, Step(F, val, c), m - 1, n);
      assert m + n - 1 == m - 1 + n;
    }
  }

  lemma {:induction false} HaltedStays(F: seq<Block>, val: Oracle, c: Config, n: nat)
    requires !c.At?
    ensures Run(F, val, c, n) == c
  {
    if n > 0 {
      HaltedStays(F, val, c, n - 1);
    }
  }

  /** Every block of F1 is kept, possibly with more instructions appended. */
  predicate Extends(F1: seq<Block>, F2: seq<Block>) {
    && |F1| <= |F2|
    && forall b | 0 <= b < |F1| :: F1[b] <= F2[b]
  }
}
