/** What folding to the end removes, and for which programs it leaves no operand pointing nowhere. */
module FoldingLimits {
  import opened Sequences
  import opened UseLists
  import opened FoldArithmetic
  import opened FoldingSemantics
  import opened SafeFolding
  import opened FoldingProgress

  /** No slot that an instruction has lost points to it, if the instruction can ever be folded. */
  ghost predicate LosesNothing(g: Graph) {
    forall i, k :: i in g.operands && 0 <= k < |g.operands[i]| && Lost(g, i, k) && g.operands[i][k] in g.operands ==>
                     NeverFolds(g, g.operands[i][k])
  }

  predicate Narrow(g: Graph) {
    forall i :: i in g.operands && Computes(g, i) ==> g.values[i].width <= 64
  }

  ghost function Rest(g: Graph): set<Id> {
    set v | v in g.values && NeverFolds(g, v)
  }

  lemma RestStays(g: Graph)
    ensures Stays(g, Rest(g))
  {
    forall v | v in Rest(g) ensures StaysAt(g, Rest(g), v) {
      var stay :| Stays(g, stay) && v in stay;
      forall w | w in stay ensures w in Rest(g) {
        assert StaysAt(g, stay, w) && NeverFolds(g, w);
      }
      assert StaysAt(g, stay, v);
    }
  }

  /** Where all arithmetic is narrow, folding is safe exactly if it loses nothing. */
  lemma SafeIff(g: Graph)
    requires Matched(g) && Narrow(g) && Keyed(g)
    ensures FoldsSafely(g) <==> LosesNothing(g)
  {
    hide Lost;
    if FoldsSafely(g) {
      var stay, val :| Safe(g, stay, val);
      assert LosesNothing(g);
    }
    if LosesNothing(g) {
      RestStays(g);
      assert Safe(g, Rest(g), map[]);
    }
  }

  /** Programs whose instructions have up to four operands lose nothing. */
  lemma FewLosesNothing(g: Graph)
    requires Linked(g) && Few(g)
    ensures LosesNothing(g)
  {
    forall i, k | i in g.operands && 0 <= k < |g.operands[i]| && g.operands[i][k] in g.operands ensures !Lost(g, i, k) {
      var v := g.operands[i][k];
      assert |g.operands[i]| <= 4 && v in g.values;
      SmallIsKept(g, i, k);
    }
  }

  lemma FewFoldsSafely(g: Graph)
    requires Linked(g) && Few(g) && Matched(g) && Narrow(g)
    ensures FoldsSafely(g)
  {
    FewLosesNothing(g);
    SafeIff(g);
  }

  // ---- At the end ----

  ghost predicate AllPlaced(p: Program) {
    forall i :: Computes(p.g, i) ==> exists b :: 0 <= b < |p.blocks| && i in p.blocks[b]
  }

  predicate NoneDangle(g: Graph) {
    forall i, k :: i in g.operands && 0 <= k < |g.operands[i]| ==>
                     g.operands[i][k] in g.values || g.operands[i][k] == NULL
  }

  ghost predicate IsEnd(start: Program, n: Id, now: Program) {
    && Traced(start.g, now.g, n) && BlocksTraced(start, now) && Matched(now.g)
    && forall b, i :: !FoldableAt(now, b, i)
  }

  function Left(g: Graph, h: Graph): set<Id> {
    set v | v in g.values && v in h.values && !g.values[v].ConstantInt?
  }

  lemma LeftStaysAt(start: Program, n: Id, now: Program, v: Id)
    requires IsEnd(start, n, now) && Linked(start.g) && Matched(start.g) && AllPlaced(start)
    requires v in Left(start.g, now.g)
    ensures StaysAt(start.g, Left(start.g, now.g), v)
  {
    hide Lost, Stays, Linked;
    if Computes(start.g, v) {
      assert v in now.g.operands && now.g.values[v] == start.g.values[v] && Computes(now.g, v);
      assert Matches(now.g, v) && Matches(start.g, v);
      var b :| 0 <= b < |start.blocks| && v in start.blocks[b];
      OnlyHas(start.blocks[b], now.g.operands.Keys, v);
      assert !FoldableAt(now, b, v);
      var k := if IsConst(now.g, now.g.operands[v][0]) then 1 else 0;
      assert !IsConst(now.g, now.g.operands[v][k]);
      assert SlotsTraced(start.g, now.g, v) && SlotTraced(start.g, now.g, v, k);
      var w := start.g.operands[v][k];
      assert w in start.g.values && w == now.g.operands[v][k];
    }
  }

  /** Exactly what is never folded is left. */
  lemma EndKeeps(start: Program, n: Id, now: Program)
    requires IsEnd(start, n, now) && Linked(start.g) && Matched(start.g) && AllPlaced(start)
    ensures forall v :: v in start.g.operands ==> (v in now.g.operands <==> NeverFolds(start.g, v))
  {
    hide AllPlaced, Lost, SlotsTraced, FoldableAt, Matches;
    forall v | v in Left(start.g, now.g) ensures StaysAt(start.g, Left(start.g, now.g), v) {
      LeftStaysAt(start, n, now, v);
    }
    forall v | v in start.g.operands ensures v in now.g.operands <==> NeverFolds(start.g, v) {
      if v in now.g.operands {
        assert v in Left(start.g, now.g);
      }
      if NeverFolds(start.g, v) {
        var stay :| Stays(start.g, stay) && v in stay;
        assert StaysAt(now.g, stay, v);
      }
    }
  }

  /** Only instructions with more than four operands have slots that moved, and those are not folded. */
  lemma LosersStay(g: Graph, i: Id, k: nat)
    requires Linked(g) && i in g.operands && k < |g.operands[i]| && Lost(g, i, k) && g.operands[i][k] in g.values
    ensures NeverFolds(g, i)
  {
    if |g.operands[i]| <= 4 {
      SmallIsKept(g, i, k);
    }
    assert StaysAt(g, {i}, i);
    assert Stays(g, {i});
  }

  lemma EndSlot(start: Program, n: Id, now: Program, i: Id, k: nat)
    requires IsEnd(start, n, now) && Keyed(start.g) && NoneDangle(start.g)
    requires i in now.g.operands && i in start.g.operands && k < |start.g.operands[i]|
    ensures |now.g.operands[i]| == |start.g.operands[i]|
    ensures var v := start.g.operands[i][k];
            (now.g.operands[i][k] in now.g.values || now.g.operands[i][k] == NULL)
            <==> !(Lost(start.g, i, k) && v in start.g.operands && v !in now.g.operands)
  {
    hide Lost, Stays, StaysAt;
    if start.g.operands[i][k] in start.g.values {
      DanglesIff(start.g, now.g, n, i, k);
    }
    assert SlotsTraced(start.g, now.g, i) && SlotTraced(start.g, now.g, i, k);
  }

  lemma EndOperands(start: Program, n: Id, now: Program)
    requires IsEnd(start, n, now)
    ensures now.g.operands.Keys <= start.g.operands.Keys
    ensures forall i :: i in now.g.operands ==> |now.g.operands[i]| == |start.g.operands[i]|
  {
    hide Lost, Stays;
    forall i | i in now.g.operands ensures |now.g.operands[i]| == |start.g.operands[i]| {
      assert SlotsTraced(start.g, now.g, i);
    }
  }

  /** No operand points nowhere at the end if and only if the program that folding started with loses nothing. */
  lemma EndDanglesIff(start: Program, n: Id, now: Program)
    requires IsEnd(start, n, now) && Linked(start.g) && Matched(start.g) && AllPlaced(start) && NoneDangle(start.g)
    ensures NoneDangle(now.g) <==> LosesNothing(start.g)
  {
    EndKeeps(start, n, now);
    EndOperands(start, n, now);
    assert Keyed(start.g);
    hide IsEnd, Linked, AllPlaced, Matched, Lost, NeverFolds;
    if LosesNothing(start.g) {
      forall i, k | i in now.g.operands && 0 <= k < |now.g.operands[i]|
        ensures now.g.operands[i][k] in now.g.values || now.g.operands[i][k] == NULL
      {
        EndSlot(start, n, now, i, k);
      }
    } else {
      var i, k :| i in start.g.operands && 0 <= k < |start.g.operands[i]| && Lost(start.g, i, k)
                  && start.g.operands[i][k] in start.g.operands && !NeverFolds(start.g, start.g.operands[i][k]);
      LosersStay(start.g, i, k);
      EndSlot(start, n, now, i, k);
    }
  }
}
