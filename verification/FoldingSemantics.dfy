/** What a program does: it runs its blocks instruction by instruction. Everything but integer arithmetic is left to
  * the outside world, which sees what the program hands to it and answers; so the record of those events is all that
  * can be observed. */
module FoldingSemantics {
  import opened Powers
  import opened Wrappers
  import opened Sequences
  import opened UseLists
  import opened FoldArithmetic

  datatype Program = Program(g: Graph, blocks: seq<seq<Id>>)

  /** The operands that the instruction looked at; the others are None. */
  datatype Event = Event(inst: Id, args: seq<Option<int>>)

  /** Arguments and addresses; which operands an instruction other than arithmetic looks at, so that a phi need not
    * look at those of edges not taken; the results of such instructions; and where control goes. All but the first
    * are free to depend on everything that has happened. */
  datatype World = World(outside: Id -> int, looks: (seq<Event>, Id, nat) -> bool, result: seq<Event> -> int,
                         branch: seq<Event> -> Option<nat>)

  datatype Machine = Machine(env: map<Id, int>, trace: seq<Event>)

  datatype Outcome = Stuck | Running(m: Machine) | Done(m: Machine)

  predicate IsTerminator(op: Op) {
    op.Other? && op.code <= 6
  }

  lemma TerminatorsAre(op: Op)
    ensures IsTerminator(op) <==> op in {Other(0), Other(1), Other(2), Other(3), Other(4), Other(5), Other(6)}
  {
  }

  const PHI := Op.Other(128)

  function Operand(w: World, g: Graph, env: map<Id, int>, v: Id): Option<int> {
    if v !in g.values then None
    else match g.values[v]
      case ConstantInt(_, bits) => Some(bits)
      case Instruction(_, _) => if v in env then Some(env[v]) else None
      case Plain(_) => Some(w.outside(v))
  }

  /** The operands from the k-th on, as far as they are looked at; None if one that is looked at has no value yet. */
  function Operands(w: World, g: Graph, env: map<Id, int>, look: nat -> bool, vs: seq<Id>, k: nat)
    : Option<seq<Option<int>>>
    decreases |vs|
  {
    if vs == [] then Some([])
    else
      var x := Operand(w, g, env, vs[0]);
      match Operands(w, g, env, look, vs[1..], k + 1)
      case None => None
      case Some(xs) => if !look(k) then Some([None] + xs) else if x.None? then None else Some([x] + xs)
  }

  /** What an instruction looks at: arithmetic at both its operands, anything else as the world has it. */
  function Look(w: World, v: Value, trace: seq<Event>, i: Id, count: nat): nat -> bool
    requires v.Instruction?
  {
    if IsArithmetic(v.op) && count == 2 then (k: nat) => true else (k: nat) => w.looks(trace, i, k)
  }

  /** Arithmetic on two operands wraps at the width; all else is an event. */
  function Perform(w: World, v: Value, m: Machine, i: Id, args: seq<Option<int>>): Machine
    requires v.Instruction?
  {
    if IsArithmetic(v.op) && |args| == 2 && args[0].Some? && args[1].Some? then
      m.(env := m.env[i := Apply(v.op, args[0].value, args[1].value) % Pow2(v.width)])
    else
      var trace := m.trace + [Event(i, args)];
      Machine(m.env[i := w.result(trace)], trace)
  }

  /** A phi sees the values that instructions had when its block was entered. */
  function Execute(w: World, g: Graph, entry: map<Id, int>, m: Machine, i: Id): Option<Machine> {
    if i !in g.operands || i !in g.values || !g.values[i].Instruction? then None
    else
      var v, vs := g.values[i], g.operands[i];
      match Operands(w, g, if v.op == PHI then entry else m.env, Look(w, v, m.trace, i, |vs|), vs, 0)
      case None => None
      case Some(args) => Some(Perform(w, v, m, i, args))
  }

  /** A block runs up to its first terminator; one without is no block to run. */
  function ExecuteBlock(w: World, g: Graph, entry: map<Id, int>, m: Machine, insts: seq<Id>): Option<Machine>
    decreases |insts|
  {
    if insts == [] then None
    else match Execute(w, g, entry, m, insts[0])
      case None => None
      case Some(n) => if IsTerminator(g.values[insts[0]].op) then Some(n) else ExecuteBlock(w, g, entry, n, insts[1..])
  }

  /** Up to so many blocks, starting with block b. */
  function Run(w: World, p: Program, m: Machine, b: nat, fuel: nat): Outcome
    decreases fuel
  {
    if fuel == 0 then Running(m)
    else if b >= |p.blocks| then Stuck
    else match ExecuteBlock(w, p.g, m.env, m, p.blocks[b])
      case None => Stuck
      case Some(n) =>
        match w.branch(n.trace)
        case None => Done(n)
        case Some(next) => Run(w, p, n, next, fuel - 1)
  }

  const START := Machine(map[], [])

  function Restrict(env: map<Id, int>, keys: set<Id>): map<Id, int> {
    map v | v in env && v in keys :: env[v]
  }

  /** Where the one program gets anywhere, the other gets to the same place, with the same events behind it and the same
    * values in all the instructions it still has. */
  predicate SameOutcome(keys: set<Id>, o: Outcome, o': Outcome) {
    match o
    case Stuck => true
    case Running(m) => o'.Running? && o'.m == Machine(Restrict(m.env, keys), m.trace)
    case Done(m) => o'.Done? && o'.m == Machine(Restrict(m.env, keys), m.trace)
  }

  ghost predicate Refines(p: Program, q: Program) {
    && q.g.operands.Keys <= p.g.operands.Keys
    && forall w, b, fuel :: SameOutcome(q.g.operands.Keys, Run(w, p, START, b, fuel), Run(w, q, START, b, fuel))
  }

  lemma RefinesTransitive(p: Program, q: Program, r: Program)
    requires Refines(p, q) && Refines(q, r)
    ensures Refines(p, r)
  {
    hide Run;
    forall w, b, fuel ensures SameOutcome(r.g.operands.Keys, Run(w, p, START, b, fuel), Run(w, r, START, b, fuel)) {
      var o, o', o'' := Run(w, p, START, b, fuel), Run(w, q, START, b, fuel), Run(w, r, START, b, fuel);
      assert SameOutcome(q.g.operands.Keys, o, o') && SameOutcome(r.g.operands.Keys, o', o'');
      if !o.Stuck? {
        RestrictTwice(o.m.env, q.g.operands.Keys, r.g.operands.Keys);
      }
    }
  }

  lemma RestrictTwice(env: map<Id, int>, keys: set<Id>, fewer: set<Id>)
    requires fewer <= keys
    ensures Restrict(Restrict(env, keys), fewer) == Restrict(env, fewer)
  {
  }

  /** The same instructions and blocks, with values besides. */
  predicate MoreValues(p: Program, q: Program) {
    && q.g.operands == p.g.operands && q.blocks == p.blocks
    && (forall v :: v in p.g.values ==> v in q.g.values && q.g.values[v] == p.g.values[v])
  }

  lemma {:induction false} MoreOperands(w: World, p: Program, q: Program, env: map<Id, int>, look: nat -> bool,
                                        vs: seq<Id>, k: nat)
    requires MoreValues(p, q) && Operands(w, p.g, env, look, vs, k).Some?
    ensures Operands(w, q.g, env, look, vs, k) == Operands(w, p.g, env, look, vs, k)
    decreases |vs|
  {
    if vs != [] {
      MoreOperands(w, p, q, env, look, vs[1..], k + 1);
    }
  }

  lemma MoreExecute(w: World, p: Program, q: Program, entry: map<Id, int>, m: Machine, i: Id)
    requires MoreValues(p, q) && Execute(w, p.g, entry, m, i).Some? && m.env.Keys <= p.g.operands.Keys
    ensures Execute(w, q.g, entry, m, i) == Execute(w, p.g, entry, m, i)
    ensures Execute(w, p.g, entry, m, i).value.env.Keys <= p.g.operands.Keys
  {
    hide Operands, Apply, Pow2, Look;
    var v, vs := p.g.values[i], p.g.operands[i];
    MoreOperands(w, p, q, if v.op == PHI then entry else m.env, Look(w, v, m.trace, i, |vs|), vs, 0);
  }

  lemma {:induction false} MoreBlock(w: World, p: Program, q: Program, entry: map<Id, int>, m: Machine, insts: seq<Id>)
    requires MoreValues(p, q) && ExecuteBlock(w, p.g, entry, m, insts).Some? && m.env.Keys <= p.g.operands.Keys
    ensures ExecuteBlock(w, q.g, entry, m, insts) == ExecuteBlock(w, p.g, entry, m, insts)
    ensures ExecuteBlock(w, p.g, entry, m, insts).value.env.Keys <= p.g.operands.Keys
    decreases |insts|
  {
    var n := Execute(w, p.g, entry, m, insts[0]);
    MoreExecute(w, p, q, entry, m, insts[0]);
    assert q.g.values[insts[0]] == p.g.values[insts[0]];
    hide Execute;
    if !IsTerminator(p.g.values[insts[0]].op) {
      MoreBlock(w, p, q, entry, n.value, insts[1..]);
    }
  }

  lemma {:induction false} MoreRun(w: World, p: Program, q: Program, m: Machine, b: nat, fuel: nat)
    requires MoreValues(p, q) && m.env.Keys <= p.g.operands.Keys
    ensures SameOutcome(p.g.operands.Keys, Run(w, p, m, b, fuel), Run(w, q, m, b, fuel))
    decreases fuel
  {
    hide ExecuteBlock;
    assert forall env: map<Id, int> :: env.Keys <= p.g.operands.Keys ==> Restrict(env, p.g.operands.Keys) == env;
    if fuel > 0 && b < |p.blocks| {
      var n := ExecuteBlock(w, p.g, m.env, m, p.blocks[b]);
      if n.Some? {
        MoreBlock(w, p, q, m.env, m, p.blocks[b]);
        if w.branch(n.value.trace).Some? {
          MoreRun(w, p, q, n.value, w.branch(n.value.trace).value, fuel - 1);
        }
      }
    }
  }

  /** Values that nothing refers to make no difference. */
  lemma MoreRefines(p: Program, q: Program)
    requires MoreValues(p, q)
    ensures Refines(p, q)
  {
    hide Run;
    forall w, b, fuel ensures SameOutcome(q.g.operands.Keys, Run(w, p, START, b, fuel), Run(w, q, START, b, fuel)) {
      MoreRun(w, p, q, START, b, fuel);
    }
  }

  /** A phi runs on the way into a loop, before the value of the edge back exists. */
  lemma PhiNeedsOneEdge(w: World, g: Graph, m: Machine, phi: Id, a: Id, back: Id)
    requires phi in g.operands && g.operands[phi] == [a, back] && phi in g.values && g.values[phi].Instruction?
             && g.values[phi].op == PHI
    requires a in g.values && g.values[a].ConstantInt?
    requires w.looks(m.trace, phi, 0) && !w.looks(m.trace, phi, 1)
    ensures Execute(w, g, m.env, m, phi).Some?
  {
    var look := Look(w, g.values[phi], m.trace, phi, 2);
    assert [a, back][1..] == [back] && [back][1..] == [];
    assert Operands(w, g, m.env, look, [], 2) == Some([]);
    assert Operands(w, g, m.env, look, [back], 1).Some?;
  }

  /** An instruction with opcode 128, and no other, sees its operand as it was when the block was entered. */
  lemma SeesEntryIff(w: World, g: Graph, entry: map<Id, int>, m: Machine, i: Id, v: Id)
    requires i in g.operands && g.operands[i] == [v] && i in g.values && g.values[i].Instruction?
    requires v in g.values && g.values[v].Instruction? && v in entry && v !in m.env && w.looks(m.trace, i, 0)
    ensures Execute(w, g, entry, m, i).Some? <==> g.values[i].op == Op.Other(128)
    ensures g.values[i].op == Op.Other(128) ==>
      Execute(w, g, entry, m, i).value.trace == m.trace + [Event(i, [Some(entry[v])])]
  {
    var look := Look(w, g.values[i], m.trace, i, 1);
    OneOperand(w, g, entry, look, v);
    OneOperand(w, g, m.env, look, v);
  }

  lemma OneOperand(w: World, g: Graph, env: map<Id, int>, look: nat -> bool, v: Id)
    requires look(0) && v in g.values && g.values[v].Instruction?
    ensures Operands(w, g, env, look, [v], 0) == if v in env then Some([Some(env[v])]) else None
  {
    assert [v][1..] == [] && Operands(w, g, env, look, [], 1) == Some([]);
    var x := Operand(w, g, env, v);
    assert x.Some? ==> [x] + [] == [Some(env[v])];
  }

  // ---- One fold ----

  function SubstitutedAt(ops: seq<Id>, from: Id, to: Id): seq<Id> {
    seq(|ops|, k requires 0 <= k < |ops| => if ops[k] == from then to else ops[k])
  }

  function Substituted(operands: map<Id, seq<Id>>, from: Id, to: Id): map<Id, seq<Id>> {
    map i | i in operands :: SubstitutedAt(operands[i], from, to)
  }

  /** Both operands are constants of one width. */
  predicate Foldable(g: Graph, i: Id) {
    && i in g.operands && i in g.values && g.values[i].Instruction? && IsArithmetic(g.values[i].op)
    && |g.operands[i]| == 2
    && (var a, b := g.operands[i][0], g.operands[i][1];
        && a in g.values && g.values[a].ConstantInt? && b in g.values && g.values[b].ConstantInt?
        && g.values[a].width == g.values[b].width)
  }

  function FoldedConstant(g: Graph, i: Id): (v: Value)
    requires Foldable(g, i)
    ensures v.ConstantInt?
  {
    var a, b := g.values[g.operands[i][0]], g.values[g.operands[i][1]];
    ConstantInt(a.width, Folded(g.values[i].op, a.width, a.bits, b.bits))
  }

  /** f is gone, and what pointed to it points to the constant c. */
  predicate IsFold(p: Program, q: Program, f: Id, c: Id) {
    && Foldable(p.g, f) && c != f
    && q.g.operands == Substituted(p.g.operands, f, c) - {f}
    && (forall v :: v in p.g.values && v != f ==> v in q.g.values && q.g.values[v] == p.g.values[v])
    && c in q.g.values && q.g.values[c] == FoldedConstant(p.g, f)
    && |q.blocks| == |p.blocks| && forall b :: 0 <= b < |p.blocks| ==> q.blocks[b] == Without(p.blocks[b], f)
  }

  /** The constant is what the instruction computes. */
  predicate FoldsRight(g: Graph, f: Id)
    requires Foldable(g, f)
  {
    var op, w, a, b := g.values[f].op, g.values[f].width, g.values[g.operands[f][0]], g.values[g.operands[f][1]];
    a.width == w && Folded(op, w, a.bits, b.bits) == Exact(op, w, a.bits, b.bits)
  }

  /** For operands of the instruction's own width, exactly if it is narrow or the true result fits into a word. */
  lemma FoldsRightIff(g: Graph, f: Id)
    requires Foldable(g, f) && g.values[g.operands[f][0]].width == g.values[f].width
    ensures var v, a, b := g.values[f], g.values[g.operands[f][0]], g.values[g.operands[f][1]];
            FoldsRight(g, f) <==> v.width <= 64 || Exact(v.op, v.width, a.bits, b.bits) < WORD
  {
    var v, a, b := g.values[f], g.values[g.operands[f][0]], g.values[g.operands[f][1]];
    FoldingIsExact(v.op, v.width, a.bits, b.bits);
  }

  /** The folded instruction has the constant's value wherever it has been run, and is missing in the other program. */
  predicate RelatedEnv(env: map<Id, int>, other: map<Id, int>, f: Id, bits: int) {
    other == env - {f} && (f in env ==> env[f] == bits)
  }

  predicate Related(m: Machine, n: Machine, f: Id, bits: int) {
    RelatedEnv(m.env, n.env, f, bits) && n.trace == m.trace
  }

  lemma {:induction false} FoldOperands(w: World, p: Program, q: Program, f: Id, c: Id, env: map<Id, int>,
                                        other: map<Id, int>, look: nat -> bool, vs: seq<Id>, k: nat)
    requires IsFold(p, q, f, c) && RelatedEnv(env, other, f, FoldedConstant(p.g, f).bits)
    requires Operands(w, p.g, env, look, vs, k).Some?
    ensures Operands(w, q.g, other, look, SubstitutedAt(vs, f, c), k) == Operands(w, p.g, env, look, vs, k)
    decreases |vs|
  {
    hide IsFold, RelatedEnv, FoldedConstant, Operand;
    if vs != [] {
      assert SubstitutedAt(vs, f, c)[1..] == SubstitutedAt(vs[1..], f, c);
      FoldOperands(w, p, q, f, c, env, other, look, vs[1..], k + 1);
      if Operand(w, p.g, env, vs[0]).Some? {
        FoldOperand(w, p, q, f, c, env, other, vs[0]);
      }
    }
  }

  lemma FoldOperand(w: World, p: Program, q: Program, f: Id, c: Id, env: map<Id, int>, other: map<Id, int>, v: Id)
    requires IsFold(p, q, f, c) && RelatedEnv(env, other, f, FoldedConstant(p.g, f).bits)
    requires Operand(w, p.g, env, v).Some?
    ensures Operand(w, q.g, other, if v == f then c else v) == Operand(w, p.g, env, v)
  {
  }

  /** Any other instruction does the same in both programs. */
  lemma FoldOther(w: World, p: Program, q: Program, f: Id, c: Id, entry: map<Id, int>, otherEntry: map<Id, int>,
                  m: Machine, n: Machine, i: Id)
    requires IsFold(p, q, f, c) && RelatedEnv(entry, otherEntry, f, FoldedConstant(p.g, f).bits)
    requires Related(m, n, f, FoldedConstant(p.g, f).bits)
    requires i != f && Execute(w, p.g, entry, m, i).Some?
    ensures Execute(w, q.g, otherEntry, n, i).Some? && q.g.values[i] == p.g.values[i]
    ensures Related(Execute(w, p.g, entry, m, i).value, Execute(w, q.g, otherEntry, n, i).value,
                    f, FoldedConstant(p.g, f).bits)
  {
    hide Operands, FoldedConstant, Foldable, Apply, Pow2;
    var v, vs := p.g.values[i], p.g.operands[i];
    var env, other := if v.op == PHI then entry else m.env, if v.op == PHI then otherEntry else n.env;
    FoldOperands(w, p, q, f, c, env, other, Look(w, v, m.trace, i, |vs|), vs, 0);
    assert q.g.operands[i] == SubstitutedAt(vs, f, c);
  }

  /** The folded instruction computes the constant, and the program without it stands still. */
  lemma FoldSelf(w: World, p: Program, f: Id, entry: map<Id, int>, m: Machine, n: Machine)
    requires Foldable(p.g, f) && FoldsRight(p.g, f) && Execute(w, p.g, entry, m, f).Some?
    requires Related(m, n, f, FoldedConstant(p.g, f).bits)
    ensures Execute(w, p.g, entry, m, f).value == m.(env := m.env[f := FoldedConstant(p.g, f).bits])
    ensures Related(Execute(w, p.g, entry, m, f).value, n, f, FoldedConstant(p.g, f).bits)
    ensures !IsTerminator(p.g.values[f].op)
  {
    hide Apply, Pow2;
    var a, b := p.g.operands[f][0], p.g.operands[f][1];
    assert p.g.operands[f] == [a, b];
    OperandsOfTwo(w, p.g, m.env, Look(w, p.g.values[f], m.trace, f, 2), a, b);
  }

  lemma OperandsOfTwo(w: World, g: Graph, env: map<Id, int>, look: nat -> bool, a: Id, b: Id)
    requires a in g.values && g.values[a].ConstantInt? && b in g.values && g.values[b].ConstantInt?
    requires look(0) && look(1)
    ensures Operands(w, g, env, look, [a, b], 0) == Some([Some(g.values[a].bits), Some(g.values[b].bits)])
  {
    var x, y := Some(g.values[a].bits as int), Some(g.values[b].bits as int);
    assert [a, b][1..] == [b] && [b][1..] == [];
    assert Operands(w, g, env, look, [], 2) == Some([]) && [y] + [] == [y];
    assert Operands(w, g, env, look, [b], 1) == Some([y]) && [x] + [y] == [x, y];
  }

  lemma {:induction false} FoldBlock(w: World, p: Program, q: Program, f: Id, c: Id, entry: map<Id, int>,
                                     otherEntry: map<Id, int>, m: Machine, n: Machine, insts: seq<Id>)
    requires IsFold(p, q, f, c) && FoldsRight(p.g, f) && RelatedEnv(entry, otherEntry, f, FoldedConstant(p.g, f).bits)
    requires Related(m, n, f, FoldedConstant(p.g, f).bits)
    requires NoDuplicates(insts) && ExecuteBlock(w, p.g, entry, m, insts).Some?
    ensures ExecuteBlock(w, q.g, otherEntry, n, Without(insts, f)).Some?
    ensures Related(ExecuteBlock(w, p.g, entry, m, insts).value,
                    ExecuteBlock(w, q.g, otherEntry, n, Without(insts, f)).value,
                    f, FoldedConstant(p.g, f).bits)
    decreases |insts|
  {
    assert Foldable(p.g, f);
    hide Execute, FoldedConstant, IsFold, FoldsRight, Foldable, Related, RelatedEnv;
    var i := insts[0];
    var m' := Execute(w, p.g, entry, m, i).value;
    if i == f {
      FoldSelf(w, p, f, entry, m, n);
      WithoutAbsent(insts[1..], f);
      FoldBlock(w, p, q, f, c, entry, otherEntry, m', n, insts[1..]);
    } else {
      FoldOther(w, p, q, f, c, entry, otherEntry, m, n, i);
      if !IsTerminator(p.g.values[i].op) {
        FoldBlock(w, p, q, f, c, entry, otherEntry, m', Execute(w, q.g, otherEntry, n, i).value, insts[1..]);
      }
    }
  }

  predicate DistinctBlocks(p: Program) {
    forall b :: 0 <= b < |p.blocks| ==> NoDuplicates(p.blocks[b])
  }

  predicate RelatedOutcomes(o: Outcome, o': Outcome, f: Id, bits: int) {
    match o
    case Stuck => true
    case Running(m) => o'.Running? && Related(m, o'.m, f, bits)
    case Done(m) => o'.Done? && Related(m, o'.m, f, bits)
  }

  lemma SameCount(p: Program, q: Program, f: Id, c: Id)
    requires IsFold(p, q, f, c)
    ensures Foldable(p.g, f) && |q.blocks| == |p.blocks|
  {
  }

  lemma RunFirst(w: World, p: Program, m: Machine, b: nat, fuel: nat)
    ensures fuel == 0 ==> Run(w, p, m, b, fuel) == Running(m)
    ensures fuel > 0 && b >= |p.blocks| ==> Run(w, p, m, b, fuel) == Stuck
    ensures fuel > 0 && b < |p.blocks| ==>
              match ExecuteBlock(w, p.g, m.env, m, p.blocks[b])
              case None => Run(w, p, m, b, fuel) == Stuck
              case Some(n) =>
                match w.branch(n.trace)
                case None => Run(w, p, m, b, fuel) == Done(n)
                case Some(next) => Run(w, p, m, b, fuel) == Run(w, p, n, next, fuel - 1)
  {
    hide ExecuteBlock;
  }

  lemma FoldNextBlock(w: World, p: Program, q: Program, f: Id, c: Id, m: Machine, n: Machine, b: nat)
    requires IsFold(p, q, f, c) && FoldsRight(p.g, f) && DistinctBlocks(p)
             && Related(m, n, f, FoldedConstant(p.g, f).bits)
    requires b < |p.blocks| && ExecuteBlock(w, p.g, m.env, m, p.blocks[b]).Some?
    ensures b < |q.blocks| && ExecuteBlock(w, q.g, n.env, n, q.blocks[b]).Some?
    ensures var m' := ExecuteBlock(w, p.g, m.env, m, p.blocks[b]).value;
            var n' := ExecuteBlock(w, q.g, n.env, n, q.blocks[b]).value;
            Related(m', n', f, FoldedConstant(p.g, f).bits) && n'.trace == m'.trace
  {
    assert q.blocks[b] == Without(p.blocks[b], f);
    hide ExecuteBlock, FoldedConstant, IsFold, FoldsRight, Foldable, RelatedEnv;
    FoldBlock(w, p, q, f, c, m.env, n.env, m, n, p.blocks[b]);
  }

  lemma {:induction false} FoldRun(w: World, p: Program, q: Program, f: Id, c: Id, m: Machine, n: Machine, b: nat,
                                   fuel: nat)
    requires IsFold(p, q, f, c) && FoldsRight(p.g, f) && DistinctBlocks(p)
             && Related(m, n, f, FoldedConstant(p.g, f).bits)
    ensures RelatedOutcomes(Run(w, p, m, b, fuel), Run(w, q, n, b, fuel), f, FoldedConstant(p.g, f).bits)
    decreases fuel
  {
    hide ExecuteBlock, FoldedConstant, IsFold, FoldsRight, Foldable, Related, DistinctBlocks, Run;
    SameCount(p, q, f, c);
    RunFirst(w, p, m, b, fuel);
    RunFirst(w, q, n, b, fuel);
    if fuel > 0 && b < |p.blocks| {
      var r := ExecuteBlock(w, p.g, m.env, m, p.blocks[b]);
      if r.Some? {
        FoldNextBlock(w, p, q, f, c, m, n, b);
        var r' := ExecuteBlock(w, q.g, n.env, n, q.blocks[b]);
        var next := w.branch(r.value.trace);
        if next.Some? {
          FoldRun(w, p, q, f, c, r.value, r'.value, next.value, fuel - 1);
        }
      }
    }
  }

  /** What has been run is an instruction of the program. */
  lemma {:induction false} RunKeys(w: World, p: Program, m: Machine, b: nat, fuel: nat)
    requires m.env.Keys <= p.g.operands.Keys
    ensures !Run(w, p, m, b, fuel).Stuck? ==> Run(w, p, m, b, fuel).m.env.Keys <= p.g.operands.Keys
    decreases fuel
  {
    hide ExecuteBlock;
    if fuel > 0 && b < |p.blocks| {
      var n := ExecuteBlock(w, p.g, m.env, m, p.blocks[b]);
      if n.Some? {
        MoreBlock(w, p, p, m.env, m, p.blocks[b]);
        if w.branch(n.value.trace).Some? {
          RunKeys(w, p, n.value, w.branch(n.value.trace).value, fuel - 1);
        }
      }
    }
  }

  /** Folding one instruction right preserves every defined run. */
  lemma FoldRefines(p: Program, q: Program, f: Id, c: Id)
    requires IsFold(p, q, f, c) && FoldsRight(p.g, f) && DistinctBlocks(p)
    ensures Refines(p, q)
  {
    assert q.g.operands.Keys == p.g.operands.Keys - {f};
    hide Run, FoldedConstant, IsFold, FoldsRight, Foldable, DistinctBlocks;
    var keys := q.g.operands.Keys;
    forall w, b, fuel ensures SameOutcome(keys, Run(w, p, START, b, fuel), Run(w, q, START, b, fuel)) {
      FoldRun(w, p, q, f, c, START, START, b, fuel);
      RunKeys(w, p, START, b, fuel);
      var o := Run(w, p, START, b, fuel);
      if !o.Stuck? {
        assert Restrict(o.m.env, keys) == o.m.env - {f};
      }
    }
  }
}
