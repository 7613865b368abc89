/** How a program that is being folded relates to the one that folding started with. */
module FoldingProgress {
  import opened Sequences
  import opened UseLists
  import opened FoldArithmetic
  import opened FoldingSemantics
  import opened SafeFolding

  // ---- What becomes of slots ----

  predicate IsConst(g: Graph, v: Id) {
    v in g.values && g.values[v].ConstantInt?
  }

  /** Slots point to what they pointed to, but to a constant where that was an instruction that is gone and knew the
    * use. */
  predicate SlotsTraced(g: Graph, h: Graph, i: Id)
    requires i in g.operands && i in h.operands
  {
    && |h.operands[i]| == |g.operands[i]|
    && (forall k :: 0 <= k < |g.operands[i]| ==> (Lost(h, i, k) <==> Lost(g, i, k)))
    && (forall k :: 0 <= k < |g.operands[i]| ==> SlotTraced(g, h, i, k))
  }

  predicate SlotTraced(g: Graph, h: Graph, i: Id, k: nat)
    requires i in g.operands && i in h.operands && k < |g.operands[i]| == |h.operands[i]|
  {
    var v, w := g.operands[i][k], h.operands[i][k];
    if v in g.operands && v !in h.operands && !Lost(g, i, k) then IsConst(h, w) else w == v
  }

  /** Values are the same, but that instructions may be gone and values with numbers from n on are new. */
  predicate ValuesTraced(g: Graph, h: Graph, n: Id) {
    && h.operands.Keys <= g.operands.Keys
    && (forall v :: v in g.values && (v in g.operands ==> v in h.operands) ==>
          v in h.values && h.values[v] == g.values[v])
    && (forall v :: v in g.operands && v !in h.operands ==> v !in h.values)
    && (forall v :: v in h.values && v < n ==> v in g.values)
  }

  ghost predicate Traced(g: Graph, h: Graph, n: Id) {
    && ValuesTraced(g, h, n)
    && (forall i :: i in h.operands ==> SlotsTraced(g, h, i))
    && (forall stay :: Stays(g, stay) ==> Stays(h, stay))
  }

  lemma TracedSelf(g: Graph, n: Id)
    ensures Traced(g, g, n)
  {
    hide Lost;
  }

  lemma TracedMore(p: Program, q: Program, n: Id)
    requires IsMore(p, q, n) && Keyed(p.g) && Below(p.g, n)
    ensures Traced(p.g, q.g, n)
  {
    hide Lost;
    forall stay | Stays(p.g, stay) ensures Stays(q.g, stay) {
      forall v | v in stay ensures StaysAt(q.g, stay, v) {
        assert StaysAt(p.g, stay, v);
      }
    }
  }

  lemma TracedStep(p: Program, q: Program, f: Id, c: Id, n: Id)
    requires IsStep(p, q, f, c) && Keyed(p.g) && c >= n && Below(p.g, n)
    ensures Traced(p.g, q.g, n)
  {
    hide Lost, FoldedConstant;
    forall stay | Stays(p.g, stay) ensures Stays(q.g, stay) {
      StepKeepsStaying(p, q, f, c, stay);
    }
    hide Stays;
    assert IsConst(q.g, c);
    forall i | i in q.g.operands ensures SlotsTraced(p.g, q.g, i) {
      assert SlotsFollow(p.g, q.g, i, f, c);
    }
  }

  lemma TracedThrough(a: Graph, b: Graph, c: Graph, n: Id, m: Id)
    requires Traced(a, b, n) && Traced(b, c, m) && n <= m && Keyed(b) && forall v :: v in a.operands ==> v < n
    ensures Traced(a, c, n)
  {
    hide Lost, Stays;
    assert ValuesTraced(a, c, n);
    forall i | i in c.operands ensures SlotsTraced(a, c, i) {
      assert SlotsTraced(b, c, i) && SlotsTraced(a, b, i);
      forall k | 0 <= k < |a.operands[i]| ensures SlotTraced(a, c, i, k) {
        assert SlotTraced(a, b, i, k) && SlotTraced(b, c, i, k);
      }
    }
  }

  /** So a slot ends up pointing nowhere exactly if it pointed to an instruction that is gone and that had lost it. */
  lemma DanglesIff(g: Graph, h: Graph, n: Id, i: Id, k: nat)
    requires Traced(g, h, n) && Keyed(g) && i in h.operands && i in g.operands && k < |g.operands[i]|
    requires g.operands[i][k] in g.values
    ensures |h.operands[i]| == |g.operands[i]|
    ensures h.operands[i][k] !in h.values <==>
            Lost(g, i, k) && g.operands[i][k] in g.operands && g.operands[i][k] !in h.operands
  {
    hide Lost, Stays;
    assert SlotsTraced(g, h, i) && SlotTraced(g, h, i, k);
  }

  // ---- A run of the pass ----

  predicate FoldableAt(p: Program, b: nat, i: Id) {
    b < |p.blocks| && i in p.blocks[b] && Foldable(p.g, i)
  }

  /** Blocks have lost exactly the instructions that are gone. */
  predicate BlocksTraced(p: Program, q: Program) {
    && |q.blocks| == |p.blocks|
    && forall b :: 0 <= b < |p.blocks| ==> q.blocks[b] == Only(p.blocks[b], q.g.operands.Keys)
  }

  /** What folding since a program, when ids below n had been given out, has kept. */
  ghost predicate Since(start: Program, n: Id, now: Program) {
    && (FoldsSafely(start.g) ==> FoldsSafely(now.g) && Refines(start, now))
    && Traced(start.g, now.g, n) && BlocksTraced(start, now)
    && (Remembered(start.g) ==> Remembered(now.g))
    && (Matched(start.g) ==> Matched(now.g))
  }

  lemma SinceThrough(a: Program, b: Program, c: Program, n: Id, m: Id)
    requires Since(a, n, b) && Since(b, m, c) && n <= m && Keyed(b.g) && Keyed(a.g) && Below(a.g, n)
    ensures Since(a, n, c)
  {
    BlocksThrough(a, b, c) by { assert c.g.operands.Keys <= b.g.operands.Keys; }
    KeysBelow(a.g, n);
    hide Lost, Traced, FoldsSafely, Refines, Remembered, Matched, BlocksTraced;
    TracedThrough(a.g, b.g, c.g, n, m);
    if FoldsSafely(a.g) {
      RefinesTransitive(a, b, c);
    }
  }

  lemma BlocksThrough(a: Program, b: Program, c: Program)
    requires BlocksTraced(a, b) && BlocksTraced(b, c) && c.g.operands.Keys <= b.g.operands.Keys
    ensures BlocksTraced(a, c)
  {
    forall d | 0 <= d < |a.blocks| ensures c.blocks[d] == Only(a.blocks[d], c.g.operands.Keys) {
      OnlyTwice(a.blocks[d], b.g.operands.Keys, c.g.operands.Keys);
    }
  }

  /** How far a run of the pass has come from the program it started with. */
  ghost predicate Progress(start: Program, n: Id, now: Program, changed: bool) {
    && Since(start, n, now)
    && (if changed then now.g.operands.Keys < start.g.operands.Keys else IsMore(start, now, n))
    && (changed ==> exists b, i :: FoldableAt(start, b, i))
    && (forall i :: Foldable(start.g, i) && i in now.g.operands ==> Foldable(now.g, i))
  }

  lemma NoProgress(p: Program, n: Id)
    requires Placed(p.g, p.blocks)
    ensures Progress(p, n, p, false)
  {
    hide Foldable, FoldsSafely, Traced, Remembered, Matched, Refines;
    MoreRefines(p, p);
    TracedSelf(p.g, n);
    assert BlocksTraced(p, p) by { PlacedIsTraced(p); }
  }

  lemma PlacedIsTraced(p: Program)
    requires Placed(p.g, p.blocks)
    ensures BlocksTraced(p, p)
  {
    PlacedInOperands(p);
    forall b | 0 <= b < |p.blocks| ensures p.blocks[b] == Only(p.blocks[b], p.g.operands.Keys) {
      OnlyAll(p.blocks[b], p.g.operands.Keys);
    }
  }

  lemma PlacedInOperands(p: Program)
    requires Placed(p.g, p.blocks)
    ensures forall b, i :: 0 <= b < |p.blocks| && i in p.blocks[b] ==> i in p.g.operands
  {
  }

  lemma SameFoldable(p: Program, q: Program, n: Id, i: Id)
    requires IsMore(p, q, n) && Keyed(p.g) && Below(p.g, n)
    ensures Foldable(p.g, i) <==> Foldable(q.g, i)
  {
    hide Lost;
    if i in p.g.operands && |p.g.operands[i]| == 2 {
      var a, b := p.g.operands[i][0], p.g.operands[i][1];
      assert (a in p.g.values <==> a in q.g.values) && (b in p.g.values <==> b in q.g.values);
    }
  }

  lemma MoreThrough(p: Program, q: Program, r: Program, n: Id, m: Id)
    requires IsMore(p, q, n) && IsMore(q, r, m) && n <= m
    ensures IsMore(p, r, n)
  {
    hide Lost;
  }

  /** Nothing that small is ever moved. */
  lemma SmallIsKept(g: Graph, i: Id, k: nat)
    requires Linked(g) && i in g.operands && k < |g.operands[i]| <= 4 && g.operands[i][k] in g.values
    ensures !Lost(g, i, k)
  {
    assert Room(k + 1) == Room(|g.operands[i]|);
    hide Lost;
  }

  lemma MoreMatched(p: Program, q: Program, n: Id)
    requires IsMore(p, q, n) && Keyed(p.g) && Matched(p.g)
    ensures Matched(q.g)
  {
    hide Lost;
    forall i | i in q.g.operands && Computes(q.g, i) ensures Matches(q.g, i) {
      assert i in p.g.operands && i in p.g.values;
      assert Computes(p.g, i);
      MoreMatches(p, q, i);
    }
  }

  lemma MoreBlocks(start: Program, p: Program, q: Program)
    requires BlocksTraced(start, p) && MoreValues(p, q)
    ensures BlocksTraced(start, q)
  {
  }

  lemma ValuesAreProgress(start: Program, n: Id, p: Program, q: Program, m: Id, changed: bool)
    requires Progress(start, n, p, changed) && IsMore(p, q, m) && n <= m && Below(p.g, m) && Below(start.g, n)
    requires Keyed(start.g) && Keyed(p.g) && (Remembered(p.g) ==> Remembered(q.g))
    ensures Progress(start, n, q, changed)
  {
    hide FoldsSafely, Refines, Matched, Traced, Remembered, Lost, Foldable, BlocksTraced;
    MoreBlocks(start, p, q);
    TracedMore(p, q, m);
    TracedThrough(start.g, p.g, q.g, n, m) by { KeysBelow(start.g, n); }
    if FoldsSafely(start.g) {
      MoreRefines(p, q);
      RefinesTransitive(start, p, q);
      MoreIsSafe(p, q, m);
    }
    if Matched(start.g) {
      MoreMatched(p, q, m);
    }
    if !changed {
      MoreThrough(start, p, q, n, m);
    }
    forall i ensures Foldable(p.g, i) <==> Foldable(q.g, i) {
      SameFoldable(p, q, m, i);
    }
  }

  lemma KeysBelow(g: Graph, n: Id)
    requires Below(g, n)
    ensures Keyed(g) ==> forall v :: v in g.operands ==> v < n
  {
  }

  lemma StepIsTraced(start: Program, n: Id, p: Program, q: Program, f: Id, c: Id, m: Id)
    requires Traced(start.g, p.g, n) && IsStep(p, q, f, c) && n <= m <= c && Below(p.g, m) && Below(start.g, n)
    requires Keyed(start.g) && Keyed(p.g)
    ensures Traced(start.g, q.g, n) && q.g.operands.Keys < start.g.operands.Keys && f !in q.g.operands
    ensures q.g.operands.Keys <= p.g.operands.Keys
  {
    hide SlotsTraced, Stays, Lost, FoldedConstant;
    TracedStep(p, q, f, c, m);
    KeysBelow(start.g, n);
    TracedThrough(start.g, p.g, q.g, n, m);
    assert f in p.g.operands;
  }

  lemma StepBlocks(start: Program, p: Program, q: Program, f: Id, c: Id)
    requires BlocksTraced(start, p) && IsStep(p, q, f, c) && Placed(p.g, p.blocks)
    ensures BlocksTraced(start, q)
  {
    PlacedInOperands(p);
    hide FoldedConstant, Foldable, SlotsFollow;
    var keys := p.g.operands.Keys;
    assert q.g.operands.Keys == keys - {f};
    forall b | 0 <= b < |start.blocks| ensures q.blocks[b] == Only(start.blocks[b], keys - {f}) {
      WithoutIsOnly(p.blocks[b], f, keys);
      OnlyTwice(start.blocks[b], keys, keys - {f});
    }
  }

  lemma StepMatched(p: Program, q: Program, f: Id, c: Id)
    requires IsStep(p, q, f, c) && Linked(p.g) && Matched(p.g)
    ensures Matched(q.g)
  {
    hide Lost, FoldedConstant, Room;
    assert Computes(p.g, f) && Matches(p.g, f);
    forall i | i in q.g.operands && Computes(q.g, i) ensures Matches(q.g, i) {
      assert SlotsFollow(p.g, q.g, i, f, c);
      assert Computes(p.g, i) && Matches(p.g, i);
      SmallIsKept(p.g, i, 0);
      SmallIsKept(p.g, i, 1);
      StepMatches(p, q, f, c, i);
    }
  }

  /** Its operands are constants, which folding something else leaves alone. */
  lemma StepKeepsFoldable(p: Program, q: Program, f: Id, c: Id, i: Id)
    requires IsStep(p, q, f, c) && i != f && Foldable(p.g, i)
    ensures Foldable(q.g, i)
  {
    hide FoldedConstant, Lost;
    assert !p.g.values[f].ConstantInt?;
    assert i in q.g.operands && SlotsFollow(p.g, q.g, i, f, c);
  }

  lemma StepIsProgress(start: Program, n: Id, p: Program, q: Program, m: Id, f: Id, c: Id, b: nat, changed: bool)
    requires Progress(start, n, p, changed) && IsStep(p, q, f, c) && n <= m <= c && Below(p.g, m) && Below(start.g, n)
    requires FoldableAt(p, b, f) && Keyed(start.g) && Linked(p.g) && Placed(p.g, p.blocks)
    requires Remembered(p.g) ==> Remembered(q.g)
    ensures Progress(start, n, q, true)
  {
    hide Remembered, Lost, Foldable, Below, IsMore, FoldsSafely, Refines, Matched, Traced, BlocksTraced, IsStep, Placed;
    assert Keyed(p.g) && DistinctBlocks(p) by { StepFrame(p); }
    StepIsTraced(start, n, p, q, f, c, m);
    StepBlocks(start, p, q, f, c);
    if Matched(start.g) {
      StepMatched(p, q, f, c);
    }
    if FoldsSafely(start.g) {
      StepRefines(p, q, f, c);
      RefinesTransitive(start, p, q);
    }
    hide Linked, Keyed;
    if !changed {
      FoldableBefore(start, n, p, b, f);
    }
    forall i | Foldable(start.g, i) && i in q.g.operands ensures Foldable(q.g, i) {
      StepKeepsFoldable(p, q, f, c, i);
    }
  }

  lemma StepFrame(p: Program)
    requires Linked(p.g) && Placed(p.g, p.blocks)
    ensures Keyed(p.g) && DistinctBlocks(p)
  {
  }

  lemma FoldableBefore(start: Program, n: Id, p: Program, b: nat, f: Id)
    requires IsMore(start, p, n) && Keyed(start.g) && Below(start.g, n) && FoldableAt(p, b, f)
    ensures FoldableAt(start, b, f)
  {
    SameFoldable(start, p, n, f);
  }
}
