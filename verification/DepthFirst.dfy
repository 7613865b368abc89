/** The order in which a search visits nodes if it goes down from the last one of each list first, and that a stack of
  * nodes still to visit gives that order. */
module DepthFirst {
  import opened Sequences
  import opened GraphTheory

  /** Nothing leads out of the map. */
  predicate Closed(adj: Adjacency) {
    forall x :: x in adj ==> forall y <- adj[x] :: y in adj
  }

  predicate Inside(adj: Adjacency, list: seq<nat>) {
    forall x <- list :: x in adj
  }

  /** The last node first, then everything below it that is new, then the rest of the list. */
  function Preorder(adj: Adjacency, list: seq<nat>, visited: set<nat>): (r: seq<nat>)
    requires Closed(adj) && Inside(adj, list)
    decreases adj.Keys - visited, |list|
  {
    if list == [] then []
    else
      var front, x := list[..|list| - 1], list[|list| - 1];
      if x in visited then Preorder(adj, front, visited)
      else
        assert x in adj.Keys - visited;
        var below := Preorder(adj, adj[x], visited + {x});
        [x] + below + Preorder(adj, front, visited + {x} + Elements(below))
  }

  lemma PreorderLast(adj: Adjacency, front: seq<nat>, x: nat, visited: set<nat>)
    requires Closed(adj) && Inside(adj, front) && x in adj
    ensures Inside(adj, front + [x])
    ensures Preorder(adj, front + [x], visited) ==
            if x in visited then Preorder(adj, front, visited)
            else
              var below := Preorder(adj, adj[x], visited + {x});
              [x] + below + Preorder(adj, front, visited + {x} + Elements(below))
  {
    var list := front + [x];
    assert list[..|list| - 1] == front && list[|list| - 1] == x;
  }

  lemma ElementsOfThree(x: nat, below: seq<nat>, rest: seq<nat>, visited: set<nat>)
    ensures visited + Elements([x] + below + rest) == visited + {x} + Elements(below) + Elements(rest)
  {
  }

  lemma Grouped(x: nat, below: seq<nat>, rest: seq<nat>, more: seq<nat>)
    ensures [x] + below + rest + more == [x] + below + (rest + more)
  {
  }

  lemma InsideBoth(adj: Adjacency, a: seq<nat>, b: seq<nat>)
    ensures Inside(adj, a + b) <==> Inside(adj, a) && Inside(adj, b)
  {
    assert forall x :: x in a + b <==> x in a || x in b;
  }

  /** What stands behind is visited before. */
  lemma {:induction false} PreorderOfTwo(adj: Adjacency, a: seq<nat>, b: seq<nat>, visited: set<nat>)
    requires Closed(adj) && Inside(adj, a) && Inside(adj, b)
    ensures Inside(adj, a + b)
    ensures var first := Preorder(adj, b, visited);
            Preorder(adj, a + b, visited) == first + Preorder(adj, a, visited + Elements(first))
    decreases adj.Keys - visited, |b|
  {
    InsideBoth(adj, a, b);
    if b == [] {
      PreorderOfNone(adj, visited);
      assert a + b == a && visited + Elements<nat>([]) == visited;
    } else {
      var front, x := b[..|b| - 1], b[|b| - 1];
      assert b == front + [x] && a + b == a + front + [x];
      assert x in adj && Inside(adj, front);
      InsideBoth(adj, a, front);
      assert x !in visited ==> x in adj.Keys - visited;
      ClosedInside(adj, x);
      hide Preorder, Closed, Inside, Elements;
      PreorderLast(adj, front, x, visited);
      PreorderLast(adj, a + front, x, visited);
      if x in visited {
        PreorderOfTwo(adj, a, front, visited);
      } else {
        var below := Preorder(adj, adj[x], visited + {x});
        var seen := visited + {x} + Elements(below);
        PreorderOfTwo(adj, a, front, seen);
        var rest := Preorder(adj, front, seen);
        ElementsOfThree(x, below, rest, visited);
        Grouped(x, below, rest, Preorder(adj, a, seen + Elements(rest)));
      }
    }
  }

  lemma ClosedInside(adj: Adjacency, x: nat)
    requires Closed(adj) && x in adj
    ensures Inside(adj, adj[x])
  {
  }

  lemma PreorderOfNone(adj: Adjacency, visited: set<nat>)
    requires Closed(adj)
    ensures Preorder(adj, [], visited) == []
  {
  }

  /** The nodes of a list that are not in a set. */
  function Unvisited(list: seq<nat>, visited: set<nat>): seq<nat> {
    if list == [] then []
    else
      var front, x := list[..|list| - 1], list[|list| - 1];
      Unvisited(front, visited) + if x in visited then [] else [x]
  }

  lemma {:induction false} UnvisitedInside(adj: Adjacency, list: seq<nat>, visited: set<nat>)
    requires Inside(adj, list)
    ensures Inside(adj, Unvisited(list, visited))
  {
    if list != [] {
      UnvisitedInside(adj, list[..|list| - 1], visited);
    }
  }

  /** Leaving out what has been visited makes no difference. */
  lemma {:induction false} PreorderOfUnvisited(adj: Adjacency, list: seq<nat>, old_: set<nat>, visited: set<nat>)
    requires Closed(adj) && Inside(adj, list) && old_ <= visited
    ensures Inside(adj, Unvisited(list, old_))
    ensures Preorder(adj, Unvisited(list, old_), visited) == Preorder(adj, list, visited)
    decreases |list|
  {
    hide Preorder, Closed;
    UnvisitedInside(adj, list, old_);
    if list != [] {
      var front, x := list[..|list| - 1], list[|list| - 1];
      assert list == front + [x];
      PreorderLast(adj, front, x, visited);
      UnvisitedInside(adj, front, old_);
      if x in old_ {
        assert Unvisited(list, old_) == Unvisited(front, old_);
        PreorderOfUnvisited(adj, front, old_, visited);
      } else {
        PreorderLast(adj, Unvisited(front, old_), x, visited);
        PreorderOfUnvisited(adj, front, old_, visited);
        if x !in visited {
          assert Inside(adj, adj[x]) by { ClosedInside(adj, x); }
          PreorderOfUnvisited(adj, front, old_, visited + {x} + Elements(Preorder(adj, adj[x], visited + {x})));
        }
      }
    }
  }

  /** Taking the last node off the stack and putting its unvisited successors on it. */
  lemma StackStep(adj: Adjacency, front: seq<nat>, x: nat, visited: set<nat>)
    requires Closed(adj) && Inside(adj, front) && x in adj && x !in visited
    ensures var next := front + Unvisited(adj[x], visited + {x});
            Inside(adj, front + [x]) && Inside(adj, next)
            && Preorder(adj, front + [x], visited) == [x] + Preorder(adj, next, visited + {x})
  {
    ClosedInside(adj, x);
    var seen := visited + {x};
    UnvisitedInside(adj, adj[x], seen);
    InsideBoth(adj, front, Unvisited(adj[x], seen));
    hide Preorder, Closed, Inside, Elements, Unvisited;
    PreorderLast(adj, front, x, visited);
    PreorderOfUnvisited(adj, adj[x], seen, seen);
    PreorderOfTwo(adj, front, Unvisited(adj[x], seen), seen);
    var below := Preorder(adj, adj[x], seen);
    Grouped(x, [], below, Preorder(adj, front, seen + Elements(below)));
    assert [x] + [] == [x];
  }
}
