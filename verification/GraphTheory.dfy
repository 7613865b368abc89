/**
 Directed graphs as adjacency lists: paths, cycles, and what an iterative three-colour depth-first search
 maintains. Shared by the two classes that run such a search.
 */
module GraphTheory {
  type Adjacency = map<nat, seq<nat>>

  function Succ(adj: Adjacency, x: nat): seq<nat> {
    if x in adj then adj[x] else []
  }

  predicate Path(adj: Adjacency, p: seq<nat>) {
    |p| >= 1 && forall i | 0 <= i < |p| - 1 :: p[i + 1] in Succ(adj, p[i])
  }

  predicate IsCycle(adj: Adjacency, p: seq<nat>) {
    |p| >= 2 && Path(adj, p) && p[0] == p[|p| - 1]
  }

  ghost predicate Cyclic(adj: Adjacency) {
    exists p :: IsCycle(adj, p)
  }

  datatype Color = White | Grey | Black

  datatype Frame = Frame(node: nat, next: nat)

  function ColorOf(color: map<nat, Color>, x: nat): Color {
    if x in color then color[x] else White
  }

  predicate OnStack(stack: seq<Frame>, x: nat) {
    exists i | 0 <= i < |stack| :: stack[i].node == x
  }

  /** The grey nodes are exactly those on the stack, each once. */
  ghost predicate GreyPath(color: map<nat, Color>, stack: seq<Frame>) {
    && (forall x: nat :: ColorOf(color, x) == Grey <==> OnStack(stack, x))
    && (forall i, j | 0 <= i < j < |stack| :: stack[i].node != stack[j].node)
  }

  /** The stack is a path: each frame stands just behind the edge to the frame above it. */
  predicate StackPath(adj: Adjacency, stack: seq<Frame>) {
    && (forall i | 0 <= i < |stack| :: stack[i].next <= |Succ(adj, stack[i].node)|)
    && (forall i | 0 <= i < |stack| - 1 ::
          stack[i].next >= 1 && Succ(adj, stack[i].node)[stack[i].next - 1] == stack[i + 1].node)
  }

  /** The edges a frame has already followed, except the one to the frame above it, lead to black nodes. */
  predicate FrameDone(adj: Adjacency, color: map<nat, Color>, f: Frame, upTo: int) {
    forall m | 0 <= m < upTo && m < |Succ(adj, f.node)| :: ColorOf(color, Succ(adj, f.node)[m]) == Black
  }

  predicate EdgesDone(adj: Adjacency, color: map<nat, Color>, stack: seq<Frame>) {
    forall i | 0 <= i < |stack| ::
      FrameDone(adj, color, stack[i], if i == |stack| - 1 then stack[i].next else stack[i].next - 1)
  }

  /** order lists the black nodes once each, every successor of a node before the node: a topological rank. */
  ghost predicate Ranked(adj: Adjacency, color: map<nat, Color>, order: seq<nat>) {
    && (forall x: nat :: ColorOf(color, x) == Black <==> x in order)
    && RankedList(adj, order)
  }

  predicate RankedList(adj: Adjacency, order: seq<nat>) {
    && (forall i, j | 0 <= i < j < |order| :: order[i] != order[j])
    && (forall i | 0 <= i < |order| ::
          forall m | 0 <= m < |Succ(adj, order[i])| :: Succ(adj, order[i])[m] in order[..i])
  }

  ghost predicate DfsInv(adj: Adjacency, color: map<nat, Color>, stack: seq<Frame>, order: seq<nat>) {
    GreyPath(color, stack) && StackPath(adj, stack) && EdgesDone(adj, color, stack) && Ranked(adj, color, order)
  }

  lemma StartRoot(adj: Adjacency, color: map<nat, Color>, order: seq<nat>, x: nat)
    requires DfsInv(adj, color, [], order) && ColorOf(color, x) == White
    ensures DfsInv(adj, color[x := Grey], [Frame(x, 0)], order)
  {
    var color' := color[x := Grey];
    assert [Frame(x, 0)][0].node == x;
    assert forall y: nat :: y != x ==> ColorOf(color', y) == ColorOf(color, y);
    assert forall y: nat :: !OnStack([], y);
    assert forall y: nat :: OnStack([Frame(x, 0)], y) ==> y == x;
  }

  /** The stack with its top frame moved past one more edge. */
  function Advance(stack: seq<Frame>): seq<Frame>
    requires |stack| > 0
  {
    stack[|stack| - 1 := stack[|stack| - 1].(next := stack[|stack| - 1].next + 1)]
  }

  lemma AdvanceSameNodes(stack: seq<Frame>)
    requires |stack| > 0
    ensures forall x: nat :: OnStack(Advance(stack), x) == OnStack(stack, x)
  {
    var s := Advance(stack);
    assert forall i | 0 <= i < |stack| :: s[i].node == stack[i].node;
    forall x: nat ensures OnStack(s, x) == OnStack(stack, x) {
      if OnStack(stack, x) {
        var i :| 0 <= i < |stack| && stack[i].node == x;
        assert s[i].node == x;
      }
      if OnStack(s, x) {
        var i :| 0 <= i < |s| && s[i].node == x;
        assert stack[i].node == x;
      }
    }
  }

  /** Skipping an edge to a black node. */
  lemma SkipBlack(adj: Adjacency, color: map<nat, Color>, stack: seq<Frame>, order: seq<nat>)
    requires DfsInv(adj, color, stack, order) && |stack| > 0
    requires var top := stack[|stack| - 1];
      top.next < |Succ(adj, top.node)| && ColorOf(color, Succ(adj, top.node)[top.next]) == Black
    ensures DfsInv(adj, color, Advance(stack), order)
  {
    hide Ranked;
    AdvanceSameNodes(stack);
  }

  /** Entering a white node. */
  lemma EnterWhite(adj: Adjacency, color: map<nat, Color>, stack: seq<Frame>, order: seq<nat>)
    requires DfsInv(adj, color, stack, order) && |stack| > 0
    requires var top := stack[|stack| - 1];
      top.next < |Succ(adj, top.node)| && ColorOf(color, Succ(adj, top.node)[top.next]) == White
    ensures var top := stack[|stack| - 1];
      var y := Succ(adj, top.node)[top.next];
      DfsInv(adj, color[y := Grey], Advance(stack) + [Frame(y, 0)], order)
  {
    var top := stack[|stack| - 1];
    var y := Succ(adj, top.node)[top.next];
    var stack' := Advance(stack) + [Frame(y, 0)];
    AdvanceSameNodes(stack);
    EnterGreyPath(color, stack, y);
    EnterEdges(adj, color, stack, y);
    forall x: nat ensures ColorOf(color[y := Grey], x) == Black <==> x in order {
      assert x != y ==> ColorOf(color[y := Grey], x) == ColorOf(color, x);
    }
  }

  lemma EnterGreyPath(color: map<nat, Color>, stack: seq<Frame>, y: nat)
    requires |stack| > 0 && GreyPath(color, stack) && ColorOf(color, y) == White
    ensures GreyPath(color[y := Grey], Advance(stack) + [Frame(y, 0)])
  {
    var s := Advance(stack);
    var stack' := s + [Frame(y, 0)];
    AdvanceSameNodes(stack);
    assert forall i | 0 <= i < |stack| :: stack'[i].node == stack[i].node;
    assert stack'[|stack|].node == y;
    assert !OnStack(stack, y);
    assert forall i | 0 <= i < |stack| :: stack[i].node != y;
    forall x: nat ensures ColorOf(color[y := Grey], x) == Grey <==> OnStack(stack', x) {
      if x != y {
        assert ColorOf(color[y := Grey], x) == ColorOf(color, x);
        if OnStack(s, x) {
          var i :| 0 <= i < |s| && s[i].node == x;
          assert stack'[i].node == x;
        }
        if OnStack(stack', x) {
          var i :| 0 <= i < |stack'| && stack'[i].node == x;
          assert stack[i].node == x;
        }
      }
    }
  }

  lemma EnterEdges(adj: Adjacency, color: map<nat, Color>, stack: seq<Frame>, y: nat)
    requires |stack| > 0 && StackPath(adj, stack) && EdgesDone(adj, color, stack) && ColorOf(color, y) == White
    requires var top := stack[|stack| - 1];
      top.next < |Succ(adj, top.node)| && y == Succ(adj, top.node)[top.next]
    ensures StackPath(adj, Advance(stack) + [Frame(y, 0)])
    ensures EdgesDone(adj, color[y := Grey], Advance(stack) + [Frame(y, 0)])
  {
    hide Succ, FrameDone;
    EnterEdgesDone(adj, color, stack, y);
  }

  lemma EnterEdgesDone(adj: Adjacency, color: map<nat, Color>, stack: seq<Frame>, y: nat)
    requires |stack| > 0 && EdgesDone(adj, color, stack) && ColorOf(color, y) == White
    requires var top := stack[|stack| - 1];
      top.next < |Succ(adj, top.node)| && y == Succ(adj, top.node)[top.next]
    ensures EdgesDone(adj, color[y := Grey], Advance(stack) + [Frame(y, 0)])
  {
    hide Succ;
    var n := |stack|;
    var stack' := Advance(stack) + [Frame(y, 0)];
    assert forall x: nat :: ColorOf(color, x) == Black ==> ColorOf(color[y := Grey], x) == Black;
    assert forall i | 0 <= i < n - 1 :: stack'[i] == stack[i];
    assert stack'[n - 1] == Frame(stack[n - 1].node, stack[n - 1].next + 1) && stack'[n] == Frame(y, 0);
    forall i | 0 <= i < |stack'|
      ensures FrameDone(adj, color[y := Grey], stack'[i],
                        if i == |stack'| - 1 then stack'[i].next else stack'[i].next - 1)
    {
      if i < n {
        assert FrameDone(adj, color, stack[i], if i == n - 1 then stack[i].next else stack[i].next - 1);
      }
    }
  }

  /** Leaving a node all of whose edges have been followed: it becomes black. */
  lemma LeaveNode(adj: Adjacency, color: map<nat, Color>, stack: seq<Frame>, order: seq<nat>)
    requires DfsInv(adj, color, stack, order) && |stack| > 0
    requires var top := stack[|stack| - 1]; top.next >= |Succ(adj, top.node)|
    ensures var top := stack[|stack| - 1];
      DfsInv(adj, color[top.node := Black], stack[..|stack| - 1], order + [top.node])
  {
    var top := stack[|stack| - 1];
    var x := top.node;
    assert OnStack(stack, x);
    LeaveGreyPath(color, stack);
    LeaveEdges(adj, color, stack);
    LeaveRanked(adj, color, top, order);
  }

  lemma LeaveGreyPath(color: map<nat, Color>, stack: seq<Frame>)
    requires |stack| > 0 && GreyPath(color, stack)
    ensures GreyPath(color[stack[|stack| - 1].node := Black], stack[..|stack| - 1])
  {
    var n := |stack| - 1;
    var x := stack[n].node;
    var stack' := stack[..n];
    forall y: nat ensures ColorOf(color[x := Black], y) == Grey <==> OnStack(stack', y) {
      if OnStack(stack', y) {
        var i :| 0 <= i < |stack'| && stack'[i].node == y;
        assert stack[i].node == y && y != x;
        assert OnStack(stack, y);
      }
      if y != x && OnStack(stack, y) {
        var i :| 0 <= i < |stack| && stack[i].node == y;
        assert stack'[i].node == y;
      }
      assert y != x ==> ColorOf(color[x := Black], y) == ColorOf(color, y);
    }
  }

  lemma LeaveEdges(adj: Adjacency, color: map<nat, Color>, stack: seq<Frame>)
    requires |stack| > 0 && StackPath(adj, stack) && EdgesDone(adj, color, stack)
    ensures StackPath(adj, stack[..|stack| - 1])
    ensures EdgesDone(adj, color[stack[|stack| - 1].node := Black], stack[..|stack| - 1])
  {
    var n := |stack| - 1;
    var x := stack[n].node;
    var color' := color[x := Black];
    var stack' := stack[..n];
    assert forall i | 0 <= i < n :: stack'[i] == stack[i];
    assert forall y: nat :: ColorOf(color, y) == Black ==> ColorOf(color', y) == Black;
    forall i | 0 <= i < n
      ensures FrameDone(adj, color', stack'[i], if i == n - 1 then stack'[i].next else stack'[i].next - 1)
    {
      assert FrameDone(adj, color, stack[i], stack[i].next - 1);
      if i == n - 1 {
        assert Succ(adj, stack[i].node)[stack[i].next - 1] == x;
      }
    }
  }

  lemma LeaveRanked(adj: Adjacency, color: map<nat, Color>, top: Frame, order: seq<nat>)
    requires Ranked(adj, color, order) && ColorOf(color, top.node) != Black
    requires FrameDone(adj, color, top, top.next) && top.next >= |Succ(adj, top.node)|
    ensures Ranked(adj, color[top.node := Black], order + [top.node])
  {
    var x := top.node;
    var order' := order + [x];
    assert x !in order;
    forall y: nat ensures ColorOf(color[x := Black], y) == Black <==> y in order' {
      assert y != x ==> ColorOf(color[x := Black], y) == ColorOf(color, y);
    }
    forall i | 0 <= i < |order'|
      ensures forall m | 0 <= m < |Succ(adj, order'[i])| :: Succ(adj, order'[i])[m] in order'[..i]
    {
      assert order'[..i] == order[..i];
      if i == |order| {
        assert order[..i] == order;
      }
    }
  }

  /** An edge from the top of the stack to a grey node closes a cycle. */
  lemma GreyClosesCycle(adj: Adjacency, color: map<nat, Color>, stack: seq<Frame>, order: seq<nat>)
    requires |stack| > 0 && DfsInv(adj, color, stack, order)
    requires var top := stack[|stack| - 1];
      top.next < |Succ(adj, top.node)| && ColorOf(color, Succ(adj, top.node)[top.next]) == Grey
    ensures Cyclic(adj)
  {
    hide EdgesDone, Ranked;
    var n := |stack|;
    var y := Succ(adj, stack[n - 1].node)[stack[n - 1].next];
    assert OnStack(stack, y) && StackPath(adj, stack);
    hide DfsInv, GreyPath, OnStack;
    var j :| 0 <= j < n && stack[j].node == y;
    StackClosesCycle(adj, stack, j);
  }

  /** The nodes on the stack from an edge's target up to its source, and that edge. */
  lemma StackClosesCycle(adj: Adjacency, stack: seq<Frame>, j: nat)
    requires j < |stack| && StackPath(adj, stack)
    requires var top := stack[|stack| - 1];
      top.next < |Succ(adj, top.node)| && Succ(adj, top.node)[top.next] == stack[j].node
    ensures Cyclic(adj)
  {
    hide Succ;
    var n := |stack|;
    var y := stack[j].node;
    var p := seq(n - j + 1, i requires 0 <= i <= n - j => if i < n - j then stack[j + i].node else y);
    forall i | 0 <= i < |p| - 1 ensures p[i + 1] in Succ(adj, p[i]) {
      if i < n - j - 1 {
        assert p[i + 1] == Succ(adj, stack[j + i].node)[stack[j + i].next - 1];
      }
    }
    assert IsCycle(adj, p);
  }

  /** Along a path that starts at order[k], every later node is listed before position k. */
  lemma {:induction false} PathDescends(adj: Adjacency, order: seq<nat>, p: seq<nat>, k: nat)
    requires RankedList(adj, order) && Path(adj, p) && |p| >= 2 && k < |order| && order[k] == p[0]
    ensures p[|p| - 1] in order[..k]
    decreases |p|
  {
    assert p[0 + 1] in Succ(adj, p[0]);
    var m :| 0 <= m < |Succ(adj, p[0])| && Succ(adj, p[0])[m] == p[1];
    assert p[1] in order[..k];
    if |p| > 2 {
      var k' :| 0 <= k' < k && order[k'] == p[1];
      var q := p[1..];
      forall i | 0 <= i < |q| - 1 ensures q[i + 1] in Succ(adj, q[i]) {
        assert p[(i + 1) + 1] in Succ(adj, p[i + 1]);
      }
      PathDescends(adj, order, q, k');
      assert order[..k'] <= order[..k];
    }
  }

  /** A graph all of whose edges leave ranked nodes has no cycle. */
  lemma RankedAcyclic(adj: Adjacency, order: seq<nat>)
    requires RankedList(adj, order) && forall x | x in adj :: x in order
    ensures !Cyclic(adj)
  {
    if p :| IsCycle(adj, p) {
      assert p[0 + 1] in Succ(adj, p[0]);
      var k :| 0 <= k < |order| && order[k] == p[0];
      PathDescends(adj, order, p, k);
    }
  }

  lemma BlackRanked(adj: Adjacency, color: map<nat, Color>, order: seq<nat>)
    requires DfsInv(adj, color, [], order) && forall x | x in adj :: ColorOf(color, x) == Black
    ensures RankedList(adj, order) && forall x | x in adj :: x in order
  {
  }

  /** The nodes of u not yet reached. */
  function Unreached(u: set<nat>, color: map<nat, Color>): set<nat> {
    set x | x in u && ColorOf(color, x) == White
  }

  /** Edges still to follow on the stack, and frames still to leave. */
  function Pending(adj: Adjacency, stack: seq<Frame>): nat {
    if stack == [] then 0
    else
      var top := stack[|stack| - 1];
      var left := if top.next <= |Succ(adj, top.node)| then |Succ(adj, top.node)| - top.next else 0;
      Pending(adj, stack[..|stack| - 1]) + left + 1
  }

  lemma PendingAdvance(adj: Adjacency, stack: seq<Frame>)
    requires |stack| > 0 && stack[|stack| - 1].next < |Succ(adj, stack[|stack| - 1].node)|
    ensures Pending(adj, Advance(stack)) == Pending(adj, stack) - 1
  {
    assert Advance(stack)[..|stack| - 1] == stack[..|stack| - 1];
  }

  lemma ReachedShrinks(u: set<nat>, color: map<nat, Color>, y: nat)
    requires y in u && ColorOf(color, y) == White
    ensures Unreached(u, color[y := Grey]) < Unreached(u, color)
  {
    assert y in Unreached(u, color) && y !in Unreached(u, color[y := Grey]);
    forall x | x in Unreached(u, color[y := Grey]) ensures x in Unreached(u, color) {
      assert x != y;
    }
  }

  lemma NothingSeen(adj: Adjacency)
    ensures DfsInv(adj, map[], [], [])
  {
    assert forall x: nat :: !OnStack([], x);
  }

  /** Between two roots no grey node survives. */
  lemma NoGreyLeft(adj: Adjacency, color: map<nat, Color>, order: seq<nat>, x: nat)
    requires DfsInv(adj, color, [], order)
    ensures ColorOf(color, x) != Grey
  {
    assert !OnStack([], x);
  }

  lemma AllWhite(adj: Adjacency, color: map<nat, Color>)
    requires forall x | x in color :: color[x] == White
    ensures DfsInv(adj, color, [], [])
  {
    assert forall x: nat :: !OnStack([], x);
  }

  predicate BlackKept(color0: map<nat, Color>, color: map<nat, Color>) {
    forall x | x in color0 :: color0[x] == Black ==> ColorOf(color, x) == Black
  }

  /** The nodes that occur in an adjacency map. */
  function Nodes(adj: Adjacency): set<nat> {
    adj.Keys + set x, i | x in adj && 0 <= i < |adj[x]| :: adj[x][i]
  }

  lemma SuccInNodes(adj: Adjacency, x: nat, i: nat)
    requires i < |Succ(adj, x)|
    ensures Succ(adj, x)[i] in Nodes(adj)
  {
  }

  lemma LeaveKeepsUnreached(adj: Adjacency, u: set<nat>, color: map<nat, Color>, stack: seq<Frame>, order: seq<nat>)
    requires |stack| > 0 && DfsInv(adj, color, stack, order)
    ensures BlackKept(color, color[stack[|stack| - 1].node := Black])
    ensures Unreached(u, color[stack[|stack| - 1].node := Black]) == Unreached(u, color)
  {
    assert OnStack(stack, stack[|stack| - 1].node);
  }

  /** The search from one root; shared by the two searches, which differ in how they find the roots. */
  method Search(adj: Adjacency, color0: map<nat, Color>, start: nat, ghost order0: seq<nat>)
      returns (cyclic: bool, color: map<nat, Color>, ghost order: seq<nat>)
    requires DfsInv(adj, color0, [], order0) && ColorOf(color0, start) == White
    ensures color.Keys <= color0.Keys + Nodes(adj) + {start} && color0.Keys <= color.Keys
    ensures cyclic ==> Cyclic(adj)
    ensures !cyclic ==> DfsInv(adj, color, [], order) && BlackKept(color0, color) && ColorOf(color, start) == Black
  {
    hide DfsInv, Succ, Nodes;
    ghost var u := Nodes(adj) + {start};
    StartRoot(adj, color0, order0, start);
    color, order := color0[start := Grey], order0;
    var stack := [Frame(start, 0)];
    while stack != []
      invariant DfsInv(adj, color, stack, order)
      invariant BlackKept(color0, color) && ColorOf(color, start) != White
      invariant color.Keys <= color0.Keys + u && color0.Keys <= color.Keys
      invariant forall i | 0 <= i < |stack| :: stack[i].node in u
      decreases Unreached(u, color), Pending(adj, stack)
    {
      var n := |stack| - 1;
      var top := stack[n];
      var neighbours := Succ(adj, top.node);
      if top.next < |neighbours| {
        var next := neighbours[top.next];
        SuccInNodes(adj, top.node, top.next);
        PendingAdvance(adj, stack);
        if ColorOf(color, next) == White {
          EnterWhite(adj, color, stack, order);
          ReachedShrinks(u, color, next);
          stack := stack[n := Frame(top.node, top.next + 1)] + [Frame(next, 0)];
          color := color[next := Grey];
        } else if ColorOf(color, next) == Grey {
          GreyClosesCycle(adj, color, stack, order);
          return true, color, order;
        } else {
          SkipBlack(adj, color, stack, order);
          stack := stack[n := Frame(top.node, top.next + 1)];
        }
      } else {
        LeaveNode(adj, color, stack, order);
        LeaveKeepsUnreached(adj, u, color, stack, order);
        order := order + [top.node];
        color := color[top.node := Black];
        stack := stack[..n];
      }
    }
    NoGreyLeft(adj, color, order, start);
    cyclic := false;
  }

  /** y can be reached from x over one or more edges. */
  ghost predicate Reaches(adj: Adjacency, x: nat, y: nat) {
    exists p :: Connects(adj, p, x, y)
  }

  predicate Connects(adj: Adjacency, p: seq<nat>, x: nat, y: nat) {
    |p| >= 2 && Path(adj, p) && p[0] == x && p[|p| - 1] == y
  }

  lemma EdgeReaches(adj: Adjacency, x: nat, y: nat)
    requires y in Succ(adj, x)
    ensures Reaches(adj, x, y)
  {
    assert Connects(adj, [x, y], x, y);
  }

  lemma ReachesFurther(adj: Adjacency, x: nat, y: nat, z: nat)
    requires Reaches(adj, x, y) && z in Succ(adj, y)
    ensures Reaches(adj, x, z)
  {
    var p :| Connects(adj, p, x, y);
    var q := p + [z];
    forall i | 0 <= i < |q| - 1 ensures q[i + 1] in Succ(adj, q[i]) {
      if i < |p| - 1 {
        assert p[i + 1] in Succ(adj, p[i]);
      }
    }
    assert Connects(adj, q, x, z);
  }

  /** A set that holds the successors of x and is closed under successors holds all that x reaches. */
  lemma {:induction false} ReachedInClosed(adj: Adjacency, x: nat, y: nat, p: seq<nat>, u: set<nat>)
    requires Connects(adj, p, x, y)
    requires forall z | z in Succ(adj, x) :: z in u
    requires forall w | w in u :: forall z | z in Succ(adj, w) :: z in u
    ensures y in u
    decreases |p|
  {
    if |p| == 2 {
      assert p[0 + 1] in Succ(adj, p[0]);
    } else {
      var n := |p| - 1;
      var q := p[..n];
      forall i | 0 <= i < |q| - 1 ensures q[i + 1] in Succ(adj, q[i]) {
        assert p[i + 1] in Succ(adj, p[i]);
      }
      ReachedInClosed(adj, x, q[n - 1], q, u);
      assert p[(n - 1) + 1] in Succ(adj, p[n - 1]);
    }
  }

  /** radj has exactly the edges of adj, reversed. */
  ghost predicate Mirrors(adj: Adjacency, radj: Adjacency) {
    forall x: nat, y: nat :: y in Succ(adj, x) <==> x in Succ(radj, y)
  }

  lemma MirrorReaches(adj: Adjacency, radj: Adjacency, x: nat, y: nat)
    requires Mirrors(adj, radj)
    ensures Reaches(adj, x, y) <==> Reaches(radj, y, x)
  {
    if Reaches(adj, x, y) {
      var p :| Connects(adj, p, x, y);
      ReversedPath(adj, radj, p, x, y);
    }
    if Reaches(radj, y, x) {
      var p :| Connects(radj, p, y, x);
      ReversedPath(radj, adj, p, y, x);
    }
  }

  lemma ReversedPath(adj: Adjacency, radj: Adjacency, p: seq<nat>, x: nat, y: nat)
    requires Mirrors(adj, radj) && Connects(adj, p, x, y)
    ensures Reaches(radj, y, x)
  {
    var q := seq(|p|, i requires 0 <= i < |p| => p[|p| - 1 - i]);
    forall i | 0 <= i < |q| - 1 ensures q[i + 1] in Succ(radj, q[i]) {
      var j := |p| - 2 - i;
      assert p[j + 1] in Succ(adj, p[j]);
    }
    assert Connects(radj, q, y, x);
  }
}
