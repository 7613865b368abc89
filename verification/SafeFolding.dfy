/** What folding an instruction does when some of its uses are lost, and for which programs it does no harm. */
module SafeFolding {
  import opened Sequences
  import opened UseLists
  import opened FoldArithmetic
  import opened FoldingSemantics

  // ---- One step ----

  /** Slots that pointed to f and that f lists point to c; the others are as they were. */
  predicate SlotsFollow(g: Graph, h: Graph, i: Id, f: Id, c: Id)
    requires i in g.operands && i in h.operands
  {
    && |h.operands[i]| == |g.operands[i]|
    && (forall k | 0 <= k < |g.operands[i]| ::
          h.operands[i][k] == if g.operands[i][k] == f && !Lost(g, i, k) then c else g.operands[i][k])
    && (forall k :: 0 <= k < |g.operands[i]| ==> (Lost(h, i, k) <==> Lost(g, i, k)))
  }

  predicate SameBut(p: Program, q: Program, f: Id) {
    |q.blocks| == |p.blocks| && forall b :: 0 <= b < |p.blocks| ==> q.blocks[b] == Without(p.blocks[b], f)
  }

  /** f is gone, and the uses that it knew use a new constant. */
  predicate IsStep(p: Program, q: Program, f: Id, c: Id) {
    && Foldable(p.g, f) && c !in p.g.values && c !in p.g.operands
    && q.g.values == p.g.values[c := FoldedConstant(p.g, f)] - {f}
    && q.g.operands.Keys == p.g.operands.Keys - {f}
    && (forall i :: i in q.g.operands ==> SlotsFollow(p.g, q.g, i, f, c))
    && SameBut(p, q, f)
  }

  /** All uses of f are known to it. */
  predicate NoneLost(g: Graph, f: Id) {
    forall i, k :: i in g.operands && 0 <= k < |g.operands[i]| && g.operands[i][k] == f ==> !Lost(g, i, k)
  }

  /** Then the step is a fold. */
  lemma StepIsFold(p: Program, q: Program, f: Id, c: Id)
    requires IsStep(p, q, f, c) && NoneLost(p.g, f)
    ensures IsFold(p, q, f, c)
  {
    hide Lost, Folded;
    assert f in p.g.values;
    forall i | i in q.g.operands ensures q.g.operands[i] == SubstitutedAt(p.g.operands[i], f, c) {
      assert SlotsFollow(p.g, q.g, i, f, c);
    }
    assert q.g.operands == Substituted(p.g.operands, f, c) - {f};
  }

  /** Constants besides, numbered from n on, to which nothing points. */
  predicate IsMore(p: Program, q: Program, n: Id) {
    && MoreValues(p, q) && (forall v :: v in q.g.values && v !in p.g.values ==> q.g.values[v].ConstantInt? && v >= n)
    && (forall i, k :: i in p.g.operands && 0 <= k < |p.g.operands[i]| ==> (Lost(q.g, i, k) <==> Lost(p.g, i, k)))
  }

  // ---- What is never folded ----

  predicate StaysAt(g: Graph, stay: set<Id>, v: Id) {
    && v in g.values && !g.values[v].ConstantInt?
    && (Computes(g, v) && |g.operands[v]| == 2 ==> g.operands[v][0] in stay || g.operands[v][1] in stay)
  }

  /** None of these is a constant, and arithmetic on two operands has one of these for an operand. */
  predicate Stays(g: Graph, stay: set<Id>) {
    forall v :: v in stay ==> StaysAt(g, stay, v)
  }

  /** The value depends on something other than constants and arithmetic. */
  ghost predicate NeverFolds(g: Graph, v: Id) {
    exists stay :: Stays(g, stay) && v in stay
  }

  predicate Computes(g: Graph, i: Id) {
    i in g.operands && i in g.values && g.values[i].Instruction? && IsArithmetic(g.values[i].op)
  }

  lemma StayingIsNotFoldable(g: Graph, stay: set<Id>, v: Id)
    requires Stays(g, stay) && v in stay
    ensures !Foldable(g, v)
  {
    assert StaysAt(g, stay, v);
    assert forall w :: w in stay ==> w in g.values && !g.values[w].ConstantInt? by {
      assert forall w :: w in stay ==> StaysAt(g, stay, w);
    }
  }

  lemma StepKeepsStaying(p: Program, q: Program, f: Id, c: Id, stay: set<Id>)
    requires IsStep(p, q, f, c) && Stays(p.g, stay)
    ensures Stays(q.g, stay)
  {
    hide FoldedConstant, Lost;
    if f in stay {
      StayingIsNotFoldable(p.g, stay, f);
    }
    forall v | v in stay ensures StaysAt(q.g, stay, v) {
      assert StaysAt(p.g, stay, v);
      assert v in q.g.operands ==> v in p.g.operands && SlotsFollow(p.g, q.g, v, f, c);
    }
  }

  // ---- When folding does no harm ----

  /** The verifier's rule for integer arithmetic. */
  predicate Matches(g: Graph, i: Id)
    requires Computes(g, i)
  {
    && |g.operands[i]| == 2
    && forall k :: 0 <= k < 2 ==>
                     g.operands[i][k] in g.values && g.values[g.operands[i][k]].width == g.values[i].width
  }

  predicate Matched(g: Graph) {
    forall i :: i in g.operands && Computes(g, i) ==> Matches(g, i)
  }

  /** Its result, should it ever be folded, fits into a word unless it is narrow anyway; val says what wide results
    * are. */
  predicate WorksOut(g: Graph, i: Id, val: map<Id, nat>)
    requires Computes(g, i)
  {
    && Matches(g, i)
    && (g.values[i].width <= 64 || HasValue(g, i, val))
  }

  predicate HasValue(g: Graph, i: Id, val: map<Id, nat>)
    requires Computes(g, i) && Matches(g, i)
  {
    var a, b := g.operands[i][0], g.operands[i][1];
    && i in val && a in val && b in val
    && val[i] == Exact(g.values[i].op, g.values[i].width, val[a], val[b]) < WORD
  }

  predicate LostStays(g: Graph, stay: set<Id>) {
    forall i, k :: i in g.operands && 0 <= k < |g.operands[i]| && Lost(g, i, k) && g.operands[i][k] in g.operands ==>
                     g.operands[i][k] in stay
  }

  predicate Values(g: Graph, val: map<Id, nat>) {
    forall v :: v in val ==> v in g.values && (g.values[v].ConstantInt? ==> val[v] == g.values[v].bits)
  }

  /** What stays cannot be folded, everything else that computes works out, and lost slots point to what stays. */
  predicate Safe(g: Graph, stay: set<Id>, val: map<Id, nat>) {
    && Stays(g, stay) && Values(g, val) && LostStays(g, stay)
    && forall i :: i in g.operands && Computes(g, i) && i !in stay ==> WorksOut(g, i, val)
  }

  ghost predicate FoldsSafely(g: Graph) {
    exists stay, val :: Safe(g, stay, val)
  }

  lemma SafeStep(p: Program, q: Program, f: Id, c: Id, stay: set<Id>, val: map<Id, nat>)
    requires IsStep(p, q, f, c) && Safe(p.g, stay, val)
    ensures NoneLost(p.g, f) && FoldsRight(p.g, f)
  {
    hide Lost, Folded, Exact, WORD;
    if f in stay {
      StayingIsNotFoldable(p.g, stay, f);
    }
    assert WorksOut(p.g, f, val);
    FoldsRightIff(p.g, f);
  }

  /** The constant has the value that its instruction had. */
  function After(g: Graph, f: Id, c: Id, val: map<Id, nat>): map<Id, nat>
    requires Foldable(g, f)
  {
    (val - {f})[c := FoldedConstant(g, f).bits]
  }

  lemma FoldedValue(g: Graph, f: Id, val: map<Id, nat>)
    requires Foldable(g, f) && WorksOut(g, f, val) && Values(g, val) && FoldsRight(g, f) && g.values[f].width > 64
    ensures val[f] == FoldedConstant(g, f).bits
  {
    hide Folded, Exact, WORD;
  }

  lemma StepWorksOut(p: Program, q: Program, f: Id, c: Id, stay: set<Id>, val: map<Id, nat>, i: Id)
    requires IsStep(p, q, f, c) && Safe(p.g, stay, val) && NoneLost(p.g, f) && FoldsRight(p.g, f)
    requires Computes(q.g, i) && i !in stay
    ensures WorksOut(q.g, i, After(p.g, f, c, val))
  {
    hide Lost, Folded, Exact, WORD;
    assert SlotsFollow(p.g, q.g, i, f, c);
    assert Computes(p.g, i) && WorksOut(p.g, i, val);
    assert f !in stay by { if f in stay { StayingIsNotFoldable(p.g, stay, f); } }
    assert WorksOut(p.g, f, val);
    assert p.g.operands[i][0] == f ==> !Lost(p.g, i, 0);
    assert p.g.operands[i][1] == f ==> !Lost(p.g, i, 1);
    StepMatches(p, q, f, c, i);
    if p.g.values[i].width > 64 && (p.g.operands[i][0] == f || p.g.operands[i][1] == f) {
      FoldedValue(p.g, f, val);
    }
  }

  lemma StepMatches(p: Program, q: Program, f: Id, c: Id, i: Id)
    requires IsStep(p, q, f, c) && Computes(p.g, f) && Matches(p.g, f)
    requires Computes(q.g, i) && Computes(p.g, i) && Matches(p.g, i)
    requires forall k :: 0 <= k < 2 && p.g.operands[i][k] == f ==> !Lost(p.g, i, k)
    ensures Matches(q.g, i)
  {
    hide Lost, Folded;
    assert SlotsFollow(p.g, q.g, i, f, c);
  }

  lemma SafeStays(p: Program, q: Program, f: Id, c: Id, stay: set<Id>, val: map<Id, nat>)
    requires IsStep(p, q, f, c) && Safe(p.g, stay, val)
    ensures Safe(q.g, stay, After(p.g, f, c, val))
  {
    SafeStep(p, q, f, c, stay, val);
    StepKeepsStaying(p, q, f, c, stay);
    LostStillStays(p, q, f, c, stay);
    hide Lost, FoldedConstant, WorksOut, Stays, LostStays, FoldsRight;
    forall i | Computes(q.g, i) && i !in stay ensures WorksOut(q.g, i, After(p.g, f, c, val)) {
      StepWorksOut(p, q, f, c, stay, val, i);
    }
  }

  lemma LostStillStays(p: Program, q: Program, f: Id, c: Id, stay: set<Id>)
    requires IsStep(p, q, f, c) && LostStays(p.g, stay)
    ensures LostStays(q.g, stay)
  {
    hide Lost, FoldedConstant;
    forall i, k | i in q.g.operands && 0 <= k < |q.g.operands[i]| && Lost(q.g, i, k)
        && q.g.operands[i][k] in q.g.operands
      ensures q.g.operands[i][k] in stay
    {
      assert i in p.g.operands && SlotsFollow(p.g, q.g, i, f, c) && Lost(p.g, i, k);
      assert q.g.operands[i][k] == p.g.operands[i][k] && p.g.operands[i][k] in p.g.operands;
    }
  }

  lemma StepRefines(p: Program, q: Program, f: Id, c: Id)
    requires IsStep(p, q, f, c) && FoldsSafely(p.g) && DistinctBlocks(p)
    ensures FoldsSafely(q.g) && Refines(p, q)
  {
    assert Foldable(p.g, f);
    hide IsStep, Safe, IsFold, Refines, NoneLost, FoldsRight;
    var stay, val :| Safe(p.g, stay, val);
    SafeStep(p, q, f, c, stay, val);
    SafeStays(p, q, f, c, stay, val);
    StepIsFold(p, q, f, c);
    FoldRefines(p, q, f, c);
  }

  lemma MoreMatches(p: Program, q: Program, i: Id)
    requires MoreValues(p, q) && Computes(p.g, i) && Matches(p.g, i)
    ensures Computes(q.g, i) && Matches(q.g, i) && q.g.operands[i] == p.g.operands[i]
  {
    var ops := p.g.operands[i];
    assert q.g.operands[i] == ops;
    forall k | 0 <= k < 2 ensures ops[k] in q.g.values && q.g.values[ops[k]].width == q.g.values[i].width {
      var a := ops[k];
      assert a in p.g.values && a in q.g.values && q.g.values[a] == p.g.values[a];
    }
  }

  lemma MoreIsSafe(p: Program, q: Program, n: Id)
    requires IsMore(p, q, n) && Keyed(p.g) && FoldsSafely(p.g)
    ensures FoldsSafely(q.g)
  {
    hide Lost, Exact, WORD;
    var stay, val :| Safe(p.g, stay, val);
    assert forall v :: v in stay ==> StaysAt(p.g, stay, v);
    assert Stays(q.g, stay);
    assert Values(q.g, val);
    assert LostStays(q.g, stay);
    forall i | Computes(q.g, i) && i !in stay ensures WorksOut(q.g, i, val) {
      assert i in p.g.operands && i in p.g.values;
      assert Computes(p.g, i);
      assert WorksOut(p.g, i, val);
      MoreMatches(p, q, i);
    }
    assert Safe(q.g, stay, val);
  }
}
