/** The constant folding pass. */
module ConstantFolding {
  import opened Powers
  import opened Wrappers
  import opened Sequences
  import opened UseLists
  import opened FoldArithmetic
  import opened FoldingSemantics
  import opened SafeFolding
  import opened FoldingProgress
  import opened FoldingLimits

  function ProgramOf(m: IRModule): Program
    reads m
  {
    Program(m.State(), m.blocks)
  }

  /** An Add, Sub or Mul of two constants of one width. */
  predicate IsSumOfConstants(g: Graph, i: Id) {
    && i in g.values && i in g.operands && g.values[i].Instruction? && g.values[i].op in {Op.Add, Op.Sub, Op.Mul}
    && |g.operands[i]| == 2
    && (var a, b := g.operands[i][0], g.operands[i][1];
        && a in g.values && b in g.values && g.values[a].ConstantInt? && g.values[b].ConstantInt?
        && g.values[a].width == g.values[b].width)
  }

  /** Sum, difference or product by the opcode, in 64 bits and then in so many as the operands have. */
  predicate IsResult(op: Op, a: Value, b: Value, c: Value)
    requires a.ConstantInt? && b.ConstantInt?
  {
    && c.ConstantInt? && c.width == a.width
    && (op == Op.Add ==> c.bits == (a.bits + b.bits) % Pow2(64) % Pow2(a.width))
    && (op == Op.Sub ==> c.bits == (a.bits - b.bits) % Pow2(64) % Pow2(a.width))
    && (op == Op.Mul ==> c.bits == a.bits * b.bits % Pow2(64) % Pow2(a.width))
    && (a.width <= 64 ==>
          && (op == Op.Add ==> c.bits == (a.bits + b.bits) % Pow2(a.width))
          && (op == Op.Sub ==> c.bits == (a.bits - b.bits) % Pow2(a.width))
          && (op == Op.Mul ==> c.bits == a.bits * b.bits % Pow2(a.width)))
  }

  lemma FoldableIs(g: Graph, i: Id)
    ensures Foldable(g, i) <==> IsSumOfConstants(g, i)
    ensures Foldable(g, i) ==>
      IsResult(g.values[i].op, g.values[g.operands[i][0]], g.values[g.operands[i][1]], FoldedConstant(g, i))
  {
    hide Pow2, Folded;
    if Foldable(g, i) {
      var op, a, b := g.values[i].op, g.values[g.operands[i][0]], g.values[g.operands[i][1]];
      FoldedIs(op, a.width, a.bits, b.bits);
      if a.width <= 64 {
        NarrowIs(op, a.width, a.bits, b.bits);
      }
    }
  }

  /** A new constant if the instruction can be folded; nothing refers to it yet. */
  method TryFold(m: IRModule, i: Id) returns (r: Option<Id>)
    requires m.Valid() && i in m.operands
    modifies m`values, m`operands, m`lists, m`next
    ensures m.Valid()
    ensures r.Some? <==> IsSumOfConstants(old(m.State()), i)
    ensures r.Some? ==>
      var ops := old(m.operands[i]);
      r.value in m.values
      && IsResult(old(m.values[i].op), old(m.values[m.operands[i][0]]), old(m.values[m.operands[i][1]]),
          m.values[r.value])
    ensures r.Some? <==> Foldable(old(m.State()), i)
    ensures r.None? ==> m.State() == old(m.State()) && m.next == old(m.next)
    ensures r.Some? ==> r.value == old(m.next) && m.next == r.value + 1
    ensures r.Some? ==> m.State() == Created(old(m.State()), r.value, FoldedConstant(old(m.State()), i))
    ensures old(Remembered(m.State())) ==> Remembered(m.State())
  {
    ValidNow(m);
    KeysOf(m.State());
    ghost var g := m.State();
    FoldableIs(g, i);
    hide m.Valid, Remembered, Linked, Below, Placed, Pow2, FoldedConstant, Folded, WORD, IsResult, IsSumOfConstants;
    var op := m.values[i].op;
    if !op.Add? && !op.Sub? && !op.Mul? {
      return None;
    }
    if |m.operands[i]| != 2 {
      return None;
    }
    var left, right := m.operands[i][0], m.operands[i][1];
    if left !in m.values || !m.values[left].ConstantInt? || right !in m.values || !m.values[right].ConstantInt? {
      return None;
    }
    var width := m.values[left].width;
    if m.values[right].width != width {
      return None;
    }
    var a, b := m.values[left].bits % WORD, m.values[right].bits % WORD;
    var result := 0;
    match op {
      case Add => result := (a + b) % WORD;
      case Sub => result := (a - b) % WORD;
      case Mul => result := a * b % WORD;
      case Other(_) =>
    }
    assert Foldable(g, i) && result == Apply(op, a, b) % WORD;
    FoldedConstantIs(g, i, result);
    var c := m.NewValue(ConstantInt(width, result % Pow2(width)));
    return Some(c);
  }

  lemma FoldedConstantIs(g: Graph, i: Id, result: nat)
    requires Foldable(g, i)
    requires var a, b := g.values[g.operands[i][0]].bits % WORD, g.values[g.operands[i][1]].bits % WORD;
             result == Apply(g.values[i].op, a, b) % WORD
    ensures var w := g.values[g.operands[i][0]].width; FoldedConstant(g, i) == ConstantInt(w, result % Pow2(w))
  {
    hide Pow2, WORD;
  }

  // ---- One instruction ----

  /** Everything that is known to use the instruction uses the constant, and the instruction is destroyed. */
  function Folding(g: Graph, f: Id, c: Id): Graph
    requires f in g.lists
  {
    Destroyed(Replaced(g, f, c), f)
  }

  lemma FoldingSlot(g: Graph, f: Id, c: Id, i: Id, k: nat)
    requires Linked(g) && f in g.operands && c in g.values && c != f && i in g.operands && i != f && k < |g.operands[i]|
    ensures f in g.lists && i in Folding(g, f, c).operands && |Folding(g, f, c).operands[i]| == |g.operands[i]|
    ensures Folding(g, f, c).operands[i][k] == if g.operands[i][k] == f && !Lost(g, i, k) then c else g.operands[i][k]
    ensures Lost(Folding(g, f, c), i, k) <==> Lost(g, i, k)
  {
    LostAfter(g, f, c, i, k);
    ReplacedTargets(g, f, c);
    hide Room, Kept, Reached, Unique;
    assert IsLive(g, Slot(g, i, k)) && Target(g, Slot(g, i, k)) == g.operands[i][k];
  }

  lemma FoldingSlots(g: Graph, h: Graph, f: Id, c: Id, i: Id)
    requires Linked(g) && Below(g, c) && Foldable(g, f) && h == Created(g, c, FoldedConstant(g, f)) && Linked(h)
    requires i in g.operands && i != f && f in h.lists
    ensures i in Folding(h, f, c).operands && SlotsFollow(g, Folding(h, f, c), i, f, c)
  {
    CreatedKeepsLost(g, c, FoldedConstant(g, f));
    hide FoldedConstant, Lost, Linked, Folding;
    forall k | 0 <= k < |g.operands[i]|
      ensures i in Folding(h, f, c).operands && |Folding(h, f, c).operands[i]| == |g.operands[i]|
      ensures Folding(h, f, c).operands[i][k] == if g.operands[i][k] == f && !Lost(g, i, k) then c else g.operands[i][k]
      ensures Lost(Folding(h, f, c), i, k) <==> Lost(g, i, k)
    {
      FoldingSlot(h, f, c, i, k);
    }
    FoldingKeys(h, f, c);
  }

  lemma FoldingKeys(g: Graph, f: Id, c: Id)
    requires f in g.lists
    ensures Folding(g, f, c).values == g.values - {f} && Folding(g, f, c).operands.Keys == g.operands.Keys - {f}
    ensures forall i :: i in g.operands && i != f ==> |Folding(g, f, c).operands[i]| == |g.operands[i]|
  {
  }

  lemma FoldingSteps(p: Program, h: Graph, f: Id, c: Id, b: nat)
    requires Linked(p.g) && Below(p.g, c) && Placed(p.g, p.blocks) && b < |p.blocks| && f in p.blocks[b]
             && Foldable(p.g, f)
    requires h == Created(p.g, c, FoldedConstant(p.g, f)) && Linked(h)
    ensures f in h.lists && IsStep(p, Program(Folding(h, f, c), p.blocks[b := Without(p.blocks[b], f)]), f, c)
  {
    KeysOf(p.g);
    FreshId(p.g, c);
    var q := Program(Folding(h, f, c), p.blocks[b := Without(p.blocks[b], f)]);
    assert SameBut(p, q, f) by {
      forall k | 0 <= k < |p.blocks| && k != b ensures Without(p.blocks[k], f) == p.blocks[k] {
        WithoutAbsent(p.blocks[k], f);
      }
    }
    hide Linked, FoldedConstant, Placed, SlotsFollow, Replaced;
    assert q.g.values == h.values - {f} && q.g.operands.Keys == h.operands.Keys - {f} by { FoldingKeys(h, f, c); }
    hide Folding;
    forall i | i in q.g.operands ensures i in p.g.operands && SlotsFollow(p.g, q.g, i, f, c) {
      FoldingSlots(p.g, h, f, c, i);
    }
  }

  /** The uses that are known point to the constant, and the instruction goes. */
  method PutConstant(m: IRModule, b: nat, i: Id, c: Id)
    requires m.Valid() && b < |m.blocks| && i in m.blocks[b] && i in m.operands && c in m.values && c != i
    modifies m`values, m`operands, m`lists, m`blocks
    ensures m.Valid() && i in old(m.lists)
    ensures m.State() == Folding(old(m.State()), i, c)
    ensures m.blocks == old(m.blocks)[b := Without(old(m.blocks[b]), i)]
    ensures old(Remembered(m.State())) ==> Remembered(m.State())
  {
    hide Linked, Below, Placed, Replaced, m.Valid, Remembered;
    ValidNow(m);
    KeysOf(m.State());
    m.ReplaceAllUsesWith(i, c);
    ReplacedAlone(old(m.State()), i, c);
    var _ := m.Erase(b, i);
    m.Destroy(i);
  }

  /** An instruction nobody is known to refer to any more. */
  lemma ReplacedAlone(g: Graph, f: Id, c: Id)
    requires f in g.operands && f in g.lists
    ensures f in Replaced(g, f, c).operands && f in Replaced(g, f, c).lists && Replaced(g, f, c).lists[f] == []
  {
  }

  method FoldOne(m: IRModule, b: nat, i: Id) returns (folded: bool)
    requires m.Valid() && b < |m.blocks| && i in m.blocks[b]
    modifies m
    ensures m.Valid() && m.next >= old(m.next)
    ensures folded <==> Foldable(old(m.State()), i)
    ensures !folded ==> ProgramOf(m) == old(ProgramOf(m))
    ensures folded ==> IsStep(old(ProgramOf(m)), ProgramOf(m), i, old(m.next))
    ensures old(Remembered(m.State())) ==> Remembered(m.State())
  {
    ghost var p := ProgramOf(m);
    ValidNow(m);
    KeysOf(p.g);
    FreshId(p.g, m.next);
    assert i in m.operands by { PlacedInOperands(p); }
    hide Linked, Below, Placed, Foldable, FoldedConstant, IsStep, Folding, m.Valid, Remembered;
    var r := TryFold(m, i);
    if r.None? {
      return false;
    }
    ValidNow(m);
    ghost var h := m.State();
    PutConstant(m, b, i, r.value);
    FoldingSteps(p, h, i, r.value, b);
    return true;
  }

  lemma ValidNow(m: IRModule)
    requires m.Valid()
    ensures Linked(m.State()) && Placed(m.State(), m.blocks) && Below(m.State(), m.next)
  {
  }

  // ---- One block ----

  /** The instructions of a list that can be folded, in order. */
  function Foldables(g: Graph, list: seq<Id>): seq<Id> {
    if list == [] then []
    else
      var n := |list| - 1;
      Foldables(g, list[..n]) + if Foldable(g, list[n]) then [list[n]] else []
  }

  lemma {:induction false} FoldablesAre(g: Graph, list: seq<Id>)
    requires NoDuplicates(list)
    ensures NoDuplicates(Foldables(g, list))
    ensures forall i :: i in Foldables(g, list) <==> i in list && Foldable(g, i)
  {
    hide Foldable;
    if list != [] {
      var n := |list| - 1;
      FoldablesAre(g, list[..n]);
      assert list == list[..n] + [list[n]];
    }
  }

  lemma NoFoldables(g: Graph, list: seq<Id>)
    ensures Foldables(g, list[..0]) == []
  {
  }

  lemma FoldablesNext(g: Graph, list: seq<Id>, k: nat)
    requires k < |list|
    ensures Foldables(g, list[..k + 1]) == Foldables(g, list[..k]) + if Foldable(g, list[k]) then [list[k]] else []
  {
    assert list[..k + 1][..k] == list[..k];
  }

  lemma {:induction false} SameFoldables(p: Program, q: Program, n: Id, list: seq<Id>)
    requires IsMore(p, q, n) && Keyed(p.g) && Below(p.g, n)
    ensures Foldables(p.g, list) == Foldables(q.g, list)
  {
    hide Foldable, IsMore, Keyed, Below;
    if list != [] {
      SameFoldables(p, q, n, list[..|list| - 1]);
      SameFoldable(p, q, n, list[|list| - 1]);
    }
  }

  /** The instructions of a block that can be folded now, in order. Trying leaves a constant behind each time. */
  method Collect(m: IRModule, b: nat) returns (toFold: seq<Id>)
    requires m.Valid() && b < |m.blocks|
    modifies m`values, m`operands, m`lists, m`next
    ensures m.Valid() && m.next >= old(m.next) && IsMore(old(ProgramOf(m)), ProgramOf(m), old(m.next))
    ensures toFold == Foldables(m.State(), m.blocks[b])
    ensures old(Remembered(m.State())) ==> Remembered(m.State())
  {
    ghost var p, n := ProgramOf(m), m.next;
    var list := m.blocks[b];
    ValidNow(m);
    StepFrame(p);
    MoreSelf(p, n);
    assert forall i <- list :: i in p.g.operands by { PlacedInOperands(p); }
    hide m.Valid, Foldable, Foldables, Remembered, Linked, Keyed, IsMore, Below, Placed, DistinctBlocks;
    toFold := [];
    assert Foldables(p.g, list[..0]) == [] by { NoFoldables(p.g, list); }
    for k := 0 to |list|
      invariant m.Valid() && m.next >= n && IsMore(p, ProgramOf(m), n)
      invariant toFold == Foldables(p.g, list[..k])
      invariant Remembered(p.g) ==> Remembered(m.State())
    {
      FoldablesNext(p.g, list, k);
      var foldable := TryOne(m, list[k], p, n);
      if foldable {
        toFold := toFold + [list[k]];
      }
    }
    assert list[..|list|] == list;
    MoreKeys(p, ProgramOf(m), n);
    SameFoldables(p, ProgramOf(m), n, list);
  }

  /** A trial whose constant is not used. */
  method TryOne(m: IRModule, i: Id, ghost p: Program, ghost n: Id) returns (foldable: bool)
    requires m.Valid() && n <= m.next && IsMore(p, ProgramOf(m), n) && Keyed(p.g) && Below(p.g, n) && i in p.g.operands
    modifies m`values, m`operands, m`lists, m`next
    ensures m.Valid() && m.next >= old(m.next) && IsMore(p, ProgramOf(m), n)
    ensures foldable <==> Foldable(p.g, i)
    ensures old(Remembered(m.State())) ==> Remembered(m.State())
  {
    ghost var q, l := ProgramOf(m), m.next;
    ValidNow(m);
    MoreKeys(p, q, n);
    SameFoldable(p, q, n, i);
    hide m.Valid, Foldable, FoldedConstant, Remembered, Linked, IsMore, Below, Placed;
    var r := TryFold(m, i);
    if r.Some? {
      CreatedIsMore(q, l, FoldedConstant(q.g, i));
      MoreThrough(p, q, ProgramOf(m), n, l);
    }
    return r.Some?;
  }

  lemma MoreSelf(p: Program, n: Id)
    ensures IsMore(p, p, n)
  {
  }

  lemma MoreKeys(p: Program, q: Program, n: Id)
    requires IsMore(p, q, n)
    ensures q.g.operands == p.g.operands && q.blocks == p.blocks
  {
  }

  lemma CreatedIsMore(p: Program, c: Id, v: Value)
    requires Linked(p.g) && Below(p.g, c) && v.ConstantInt?
    ensures IsMore(p, Program(Created(p.g, c, v), p.blocks), c)
  {
    CreatedKeepsLost(p.g, c, v);
    FreshId(p.g, c);
    hide Lost;
  }

  /** What is still to be folded in a block when the first j of the list are done. */
  predicate Pending(start: Program, now: Program, b: nat, toFold: seq<Id>, j: nat)
    requires j <= |toFold|
  {
    && b < |now.blocks|
    && (forall k :: j <= k < |toFold| ==> FoldableAt(now, b, toFold[k]))
    && (forall i :: i in now.blocks[b] && Foldable(start.g, i) ==> i in toFold[j..])
  }

  lemma CollectedIsPending(start: Program, n: Id, now: Program, b: nat, toFold: seq<Id>, changed: bool)
    requires Progress(start, n, now, changed) && b < |now.blocks| && Placed(now.g, now.blocks)
    requires toFold == Foldables(now.g, now.blocks[b])
    ensures NoDuplicates(toFold) && Pending(start, now, b, toFold, 0)
  {
    PlacedInOperands(now);
    FoldablesAre(now.g, now.blocks[b]);
    hide FoldsSafely, Refines, Foldable, Traced, BlocksTraced, Remembered, Matched, IsMore;
    assert toFold[0..] == toFold;
  }

  lemma FoldedIsPending(start: Program, p: Program, q: Program, b: nat, toFold: seq<Id>, j: nat, c: Id)
    requires j < |toFold| && Pending(start, p, b, toFold, j) && NoDuplicates(toFold)
    requires IsStep(p, q, toFold[j], c) && DistinctBlocks(p)
    ensures Pending(start, q, b, toFold, j + 1)
  {
    var f := toFold[j];
    assert q.blocks[b] == Without(p.blocks[b], f);
    WithoutKeeps(p.blocks[b], f);
    hide IsStep, Foldable;
    forall k | j + 1 <= k < |toFold| ensures FoldableAt(q, b, toFold[k]) {
      StepKeepsFoldable(p, q, f, c, toFold[k]);
    }
    assert toFold[j..] == [f] + toFold[j + 1..];
  }

  /** Blocks have lost instructions at most. */
  ghost predicate Shrunk(before: seq<seq<Id>>, now: seq<seq<Id>>) {
    |now| == |before| && forall b, i :: 0 <= b < |now| && i in now[b] ==> i in before[b]
  }

  lemma ShrunkThrough(blocks: seq<seq<Id>>, fewer: seq<seq<Id>>, least: seq<seq<Id>>)
    requires Shrunk(blocks, fewer) && Shrunk(fewer, least)
    ensures Shrunk(blocks, least) && |least| == |blocks|
  {
  }

  lemma StepShrinks(p: Program, q: Program, f: Id, c: Id)
    requires IsStep(p, q, f, c) && DistinctBlocks(p)
    ensures Shrunk(p.blocks, q.blocks)
  {
    hide Foldable, FoldedConstant, SlotsFollow;
    forall b, i | 0 <= b < |q.blocks| && i in q.blocks[b] ensures i in p.blocks[b] {
      WithoutKeeps(p.blocks[b], f);
    }
  }

  /** Nothing in the block could have been folded at the start. */
  predicate Cleared(start: Program, blocks: seq<seq<Id>>, b: nat) {
    b < |blocks| && forall i <- blocks[b] :: !Foldable(start.g, i)
  }

  predicate ClearedUpTo(start: Program, blocks: seq<seq<Id>>, n: nat) {
    forall b :: 0 <= b < n ==> Cleared(start, blocks, b)
  }

  /** What the outer loop of the pass does with a block. */
  method RunOnBlock(m: IRModule, b: nat, ghost start: Program, ghost n: Id, before: bool) returns (changed: bool)
    requires m.Valid() && b < |m.blocks| && Progress(start, n, ProgramOf(m), before) && Keyed(start.g)
    requires n <= m.next && Below(start.g, n)
    modifies m
    ensures m.Valid() && m.next >= old(m.next) && Progress(start, n, ProgramOf(m), changed)
    ensures Shrunk(old(m.blocks), m.blocks) && Cleared(start, m.blocks, b)
  {
    hide m.Valid, Progress, Foldable, IsMore, Keyed, Pending, Below, Shrunk, Cleared;
    ghost var blocks, l := m.blocks, m.next;
    NotShrunk(blocks);
    changed := before;
    var toFold := CollectPending(m, b, start, n, before);
    for j := 0 to |toFold|
      invariant m.Valid() && m.next >= l && Progress(start, n, ProgramOf(m), changed)
      invariant Pending(start, ProgramOf(m), b, toFold, j)
      invariant Shrunk(blocks, m.blocks)
    {
      ghost var some := m.blocks;
      changed := FoldNext(m, b, start, n, changed, toFold, j);
      ShrunkThrough(blocks, some, m.blocks);
    }
    NonePending(start, ProgramOf(m), b, toFold);
  }

  method CollectPending(m: IRModule, b: nat, ghost start: Program, ghost n: Id, ghost changed: bool)
      returns (toFold: seq<Id>)
    requires m.Valid() && b < |m.blocks| && Progress(start, n, ProgramOf(m), changed) && Keyed(start.g)
    requires n <= m.next && Below(start.g, n)
    modifies m`values, m`operands, m`lists, m`next
    ensures m.Valid() && m.next >= old(m.next) && Progress(start, n, ProgramOf(m), changed)
    ensures NoDuplicates(toFold) && Pending(start, ProgramOf(m), b, toFold, 0)
  {
    ghost var q, l := ProgramOf(m), m.next;
    ValidNow(m);
    StepFrame(q);
    hide m.Valid, Progress, Foldable, IsMore, Keyed, Pending, Linked, Below, Placed, Remembered, DistinctBlocks;
    toFold := Collect(m, b);
    ValuesAreProgress(start, n, q, ProgramOf(m), l, changed);
    ValidNow(m);
    CollectedIsPending(start, n, ProgramOf(m), b, toFold, changed);
  }

  lemma NotShrunk(blocks: seq<seq<Id>>)
    ensures Shrunk(blocks, blocks)
  {
  }

  /** The next instruction of the list. */
  method FoldNext(m: IRModule, b: nat, ghost start: Program, ghost n: Id, before: bool, toFold: seq<Id>, j: nat)
      returns (changed: bool)
    requires m.Valid() && Progress(start, n, ProgramOf(m), before) && Keyed(start.g)
    requires n <= m.next && Below(start.g, n)
    requires j < |toFold| && NoDuplicates(toFold) && Pending(start, ProgramOf(m), b, toFold, j)
    modifies m
    ensures m.Valid() && m.next >= old(m.next) && Progress(start, n, ProgramOf(m), changed)
    ensures Pending(start, ProgramOf(m), b, toFold, j + 1)
    ensures Shrunk(old(m.blocks), m.blocks)
  {
    ghost var p, l := ProgramOf(m), m.next;
    var f := toFold[j];
    ValidNow(m);
    StepFrame(p);
    PendingFirst(start, p, b, toFold, j);
    hide m.Valid, Progress, Foldable, IsStep, Keyed, Pending, Linked, Below, Placed, Remembered, DistinctBlocks, Shrunk;
    changed := before;
    var folded := FoldOne(m, b, f);
    StepIsProgress(start, n, p, ProgramOf(m), l, f, l, b, changed);
    FoldedIsPending(start, p, ProgramOf(m), b, toFold, j, l);
    StepShrinks(p, ProgramOf(m), f, l);
    changed := true;
  }

  lemma PendingFirst(start: Program, now: Program, b: nat, toFold: seq<Id>, j: nat)
    requires j < |toFold| && Pending(start, now, b, toFold, j)
    ensures FoldableAt(now, b, toFold[j])
  {
  }

  lemma NonePending(start: Program, now: Program, b: nat, toFold: seq<Id>)
    requires Pending(start, now, b, toFold, |toFold|)
    ensures Cleared(start, now.blocks, b)
  {
  }

  // ---- The whole module ----

  /** Every use of an instruction that was gone afterwards points to a constant instead, unless the instruction had
    * lost it; then it points nowhere. If that cannot happen and what is folded works out, the pass keeps every
    * defined run. It removes every instruction that could be folded when it began, and answers true exactly if there
    * was one. */
  method RunPass(m: IRModule) returns (changed: bool)
    requires m.Valid()
    modifies m
    ensures m.Valid() && m.next >= old(m.next)
    ensures Progress(old(ProgramOf(m)), old(m.next), ProgramOf(m), changed)
    ensures FoldsSafely(old(m.State())) ==> FoldsSafely(m.State()) && Refines(old(ProgramOf(m)), ProgramOf(m))
    ensures ClearedUpTo(old(ProgramOf(m)), m.blocks, |m.blocks|)
    ensures changed <==> exists b, i :: FoldableAt(old(ProgramOf(m)), b, i)
    ensures changed ==> m.operands.Keys < old(m.operands.Keys)
  {
    ghost var start, n := ProgramOf(m), m.next;
    ValidNow(m);
    StepFrame(start);
    NoProgress(start, n);
    hide m.Valid, Foldable, Keyed, Placed, Progress, Linked, Below, FoldsSafely, Refines, DistinctBlocks, Shrunk;
    hide Cleared, ClearedUpTo;
    changed := false;
    var b := 0;
    assert ClearedUpTo(start, m.blocks, 0) by { NoneCleared(start, m.blocks); }
    while b < |m.blocks|
      invariant b <= |m.blocks| == |start.blocks|
      invariant m.Valid() && m.next >= n && Progress(start, n, ProgramOf(m), changed)
      invariant ClearedUpTo(start, m.blocks, b)
      decreases |start.blocks| - b
    {
      ghost var blocks := m.blocks;
      changed := RunOnBlock(m, b, start, n, changed);
      StillCleared(start, blocks, m.blocks, b);
      b := b + 1;
    }
    PassResult(start, n, ProgramOf(m), changed);
  }

  lemma NoneCleared(start: Program, blocks: seq<seq<Id>>)
    ensures ClearedUpTo(start, blocks, 0)
  {
  }

  lemma StillCleared(start: Program, blocks: seq<seq<Id>>, fewer: seq<seq<Id>>, b: nat)
    requires Shrunk(blocks, fewer) && b < |blocks| && ClearedUpTo(start, blocks, b) && Cleared(start, fewer, b)
    ensures |fewer| == |blocks| && ClearedUpTo(start, fewer, b + 1)
  {
    hide Foldable;
    forall d | 0 <= d < b ensures Cleared(start, fewer, d) {
      assert Cleared(start, blocks, d);
    }
  }

  lemma PassResult(start: Program, n: Id, now: Program, changed: bool)
    requires Progress(start, n, now, changed)
    requires ClearedUpTo(start, now.blocks, |now.blocks|)
    ensures FoldsSafely(start.g) ==> FoldsSafely(now.g) && Refines(start, now)
    ensures changed <==> exists b, i :: FoldableAt(start, b, i)
    ensures changed ==> now.g.operands.Keys < start.g.operands.Keys
  {
    hide FoldsSafely, Refines, Foldable, Traced, BlocksTraced, Remembered, Matched, IsMore;
    if !changed {
      assert now.blocks == start.blocks by { MoreKeys(start, now, n); }
      forall b: nat, i ensures !FoldableAt(start, b, i) {
        assert b < |now.blocks| ==> Cleared(start, now.blocks, b);
      }
    }
  }

  /** Running the pass until it answers false ends in a program in which nothing can be folded. If arithmetic is typed
    * as the verifier wants it and stands in blocks, exactly the instructions that never fold are left, and no operand
    * has come to point nowhere if and only if the program that it began with loses nothing. */
  method RunToFixpoint(m: IRModule)
    requires m.Valid()
    modifies m
    ensures m.Valid() && forall b, i :: !FoldableAt(ProgramOf(m), b, i)
    ensures Since(old(ProgramOf(m)), old(m.next), ProgramOf(m))
    ensures FoldsSafely(old(m.State())) ==> Refines(old(ProgramOf(m)), ProgramOf(m))
    ensures Matched(old(m.State())) && AllPlaced(old(ProgramOf(m))) ==>
              forall v :: v in old(m.operands) ==> (v in m.operands <==> NeverFolds(old(m.State()), v))
    ensures Matched(old(m.State())) && AllPlaced(old(ProgramOf(m))) && NoneDangle(old(m.State())) ==>
              (NoneDangle(m.State()) <==> LosesNothing(old(m.State())))
  {
    ghost var start, n := ProgramOf(m), m.next;
    ValidNow(m);
    StepFrame(start);
    NoProgress(start, n);
    assert Since(start, n, start);
    hide m.Valid, Foldable, Keyed, Placed, Progress, Since, Linked, Below, DistinctBlocks, FoldableAt, ClearedUpTo;
    hide FoldsSafely, Refines;
    var changed := true;
    while changed
      invariant m.Valid() && m.next >= n && Since(start, n, ProgramOf(m))
      invariant !changed ==> forall b, i :: !FoldableAt(ProgramOf(m), b, i)
      decreases m.operands.Keys, changed
    {
      ghost var p, l := ProgramOf(m), m.next;
      ValidNow(m);
      StepFrame(p);
      changed := RunPass(m);
      PassSince(start, n, p, l, ProgramOf(m), changed);
    }
    FixpointResult(start, n, ProgramOf(m));
  }

  lemma PassSince(start: Program, n: Id, p: Program, m: Id, q: Program, changed: bool)
    requires Since(start, n, p) && Progress(p, m, q, changed) && n <= m && Keyed(p.g) && Keyed(start.g)
    requires Below(start.g, n) && Below(p.g, m)
    ensures Since(start, n, q)
    ensures !changed && (forall b, i :: !FoldableAt(p, b, i)) ==>
              q.g.operands == p.g.operands && forall b, i :: !FoldableAt(q, b, i)
  {
    hide Since, Foldable, Keyed, Below, IsMore;
    SinceThrough(start, p, q, n, m);
    if !changed && forall b, i :: !FoldableAt(p, b, i) {
      MoreKeys(p, q, m);
      forall b: nat, i ensures !FoldableAt(q, b, i) {
        SameFoldable(p, q, m, i);
        assert !FoldableAt(p, b, i);
      }
    }
  }

  lemma FixpointResult(start: Program, n: Id, now: Program)
    requires Since(start, n, now) && Linked(start.g) && forall b, i :: !FoldableAt(now, b, i)
    ensures FoldsSafely(start.g) ==> Refines(start, now)
    ensures Matched(start.g) && AllPlaced(start) ==>
              forall v :: v in start.g.operands ==> (v in now.g.operands <==> NeverFolds(start.g, v))
    ensures Matched(start.g) && AllPlaced(start) && NoneDangle(start.g) ==>
            (NoneDangle(now.g) <==> LosesNothing(start.g))
  {
    hide FoldsSafely, Refines, Traced, BlocksTraced, Matched, AllPlaced, FoldableAt, NeverFolds, NoneDangle;
    hide LosesNothing, Linked;
    if Matched(start.g) && AllPlaced(start) {
      EndKeeps(start, n, now);
      if NoneDangle(start.g) {
        EndDanglesIff(start, n, now);
      }
    }
  }
}
