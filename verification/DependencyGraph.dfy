/** The graph of which query depends on which, kept in both directions. */
module Dependencies {
  import opened Sequences
  import opened GraphTheory
  import opened DepthFirst

  /** The list with x appended unless it is already there. */
  function WithNew(s: seq<nat>, x: nat): seq<nat> {
    if x in s then s else s + [x]
  }

  function WithAllNew(s: seq<nat>, xs: seq<nat>): seq<nat>
    decreases |xs|
  {
    if xs == [] then s else WithAllNew(WithNew(s, xs[0]), xs[1..])
  }

  lemma {:induction false} WithAllNewAppend(s: seq<nat>, xs: seq<nat>, x: nat)
    ensures WithAllNew(s, xs + [x]) == WithNew(WithAllNew(s, xs), x)
    decreases |xs|
  {
    if xs == [] {
      assert ([] + [x])[1..] == [];
      assert WithAllNew(s, [x]) == WithAllNew(WithNew(s, x), [x][1..]) == WithNew(s, x);
      assert [] + [x] == [x];
    } else {
      assert (xs + [x])[1..] == xs[1..] + [x];
      WithAllNewAppend(WithNew(s, xs[0]), xs[1..], x);
    }
  }

  lemma {:induction false} WithAllNewElements(s: seq<nat>, xs: seq<nat>)
    ensures forall y: nat :: y in WithAllNew(s, xs) <==> y in s || y in xs
    ensures NoDuplicates(s) ==> NoDuplicates(WithAllNew(s, xs))
    decreases |xs|
  {
    if xs != [] {
      WithAllNewElements(WithNew(s, xs[0]), xs[1..]);
      assert xs == [xs[0]] + xs[1..];
    }
  }

  /** The list goes on with what is new to it, each thing at its first place. */
  lemma {:induction false} WithAllNewIs(s: seq<nat>, xs: seq<nat>)
    ensures WithAllNew(s, xs) == s + New(xs, Elements(s))
    decreases |xs|
  {
    if xs == [] {
      assert s + [] == s;
    } else {
      var x := xs[0];
      WithAllNewIs(WithNew(s, x), xs[1..]);
      if x !in s {
        assert Elements(s + [x]) == Elements(s) + {x};
        assert s + [x] + New(xs[1..], Elements(s) + {x}) == s + ([x] + New(xs[1..], Elements(s) + {x}));
      }
    }
  }

  /** One entry per node in both maps, exact mirrors of each other, no entry twice. */
  ghost predicate Consistent(deps: Adjacency, rdeps: Adjacency) {
    && deps.Keys == rdeps.Keys
    && Mirrors(deps, rdeps)
    && (forall x | x in deps :: NoDuplicates(deps[x]))
    && (forall x | x in rdeps :: NoDuplicates(rdeps[x]))
  }

  lemma ElementsAppend(s: seq<nat>, x: nat)
    ensures Elements(s + [x]) == Elements(s) + {x}
  {
  }

  /** The forward map after dependent was recorded to depend on each node of done, in order. */
  ghost predicate RecordedForward(deps0: Adjacency, dependent: nat, done: seq<nat>, deps: Adjacency) {
    && deps.Keys == deps0.Keys + {dependent} + Elements(done)
    && Succ(deps, dependent) == WithAllNew(Succ(deps0, dependent), done)
    && (forall x: nat :: x != dependent ==> Succ(deps, x) == Succ(deps0, x))
  }

  /** The backward map at that point, with entries for the nodes of extra as well. */
  ghost predicate RecordedBackward(rdeps0: Adjacency, dependent: nat, done: seq<nat>, extra: set<nat>,
                                   rdeps: Adjacency) {
    && rdeps.Keys == rdeps0.Keys + Elements(done) + extra
    && (forall x: nat :: Succ(rdeps, x) == if x in done then WithNew(Succ(rdeps0, x), dependent) else Succ(rdeps0, x))
  }

  lemma RecordNothing(deps0: Adjacency, rdeps0: Adjacency, dependent: nat)
    ensures RecordedForward(deps0, dependent, [], if dependent in deps0 then deps0 else deps0[dependent := []])
    ensures RecordedBackward(rdeps0, dependent, [], {}, rdeps0)
  {
    assert Elements<nat>([]) == {};
  }

  lemma RecordForward(deps0: Adjacency, dependent: nat, done: seq<nat>, deps: Adjacency, d: nat)
    requires RecordedForward(deps0, dependent, done, deps)
    ensures var deps1 := deps[dependent := WithNew(Succ(deps, dependent), d)];
      RecordedForward(deps0, dependent, done + [d], if d in deps1 then deps1 else deps1[d := []])
  {
    hide WithNew, WithAllNew;
    WithAllNewAppend(Succ(deps0, dependent), done, d);
    var deps1 := deps[dependent := WithNew(Succ(deps, dependent), d)];
    var deps2 := if d in deps1 then deps1 else deps1[d := []];
    assert forall x: nat :: Succ(deps2, x) == Succ(deps1, x);
    assert Elements(done + [d]) == Elements(done) + {d};
    assert deps2.Keys == deps.Keys + {dependent} + {d};
  }

  lemma RecordBackward(rdeps0: Adjacency, dependent: nat, done: seq<nat>, rdeps: Adjacency, d: nat)
    requires RecordedBackward(rdeps0, dependent, done, {}, rdeps)
    ensures RecordedBackward(rdeps0, dependent, done + [d], {}, rdeps[d := WithNew(Succ(rdeps, d), dependent)])
  {
    hide Elements;
    var rdeps1 := rdeps[d := WithNew(Succ(rdeps, d), dependent)];
    forall x: nat
      ensures Succ(rdeps1, x) == if x in done + [d] then WithNew(Succ(rdeps0, x), dependent) else Succ(rdeps0, x)
    {
      if x != d {
        assert Succ(rdeps1, x) == Succ(rdeps, x);
      }
    }
    ElementsAppend(done, d);
    assert rdeps1.Keys == rdeps.Keys + {d};
  }

  /** The edges after recording: the old ones, and those from dependent to the recorded nodes. */
  lemma RecordedEdges(deps0: Adjacency, dependent: nat, done: seq<nat>, deps: Adjacency)
    requires RecordedForward(deps0, dependent, done, deps)
    ensures forall x: nat, y: nat :: y in Succ(deps, x) <==> y in Succ(deps0, x) || (x == dependent && y in done)
  {
    WithAllNewElements(Succ(deps0, dependent), done);
  }

  lemma RecordedMirrors(deps0: Adjacency, rdeps0: Adjacency, dependent: nat, done: seq<nat>, extra: set<nat>,
                        deps: Adjacency, rdeps: Adjacency)
    requires Mirrors(deps0, rdeps0)
    requires RecordedForward(deps0, dependent, done, deps) && RecordedBackward(rdeps0, dependent, done, extra, rdeps)
    ensures Mirrors(deps, rdeps)
  {
    RecordedEdges(deps0, dependent, done, deps);
    hide RecordedForward, WithAllNew;
    forall x: nat, y: nat ensures y in Succ(deps, x) <==> x in Succ(rdeps, y) {
      assert y in Succ(deps0, x) <==> x in Succ(rdeps0, y);
    }
  }

  lemma ForwardNoDuplicates(deps0: Adjacency, dependent: nat, done: seq<nat>, deps: Adjacency)
    requires forall x | x in deps0 :: NoDuplicates(deps0[x])
    requires RecordedForward(deps0, dependent, done, deps)
    ensures forall x | x in deps :: NoDuplicates(deps[x])
  {
    hide WithNew, WithAllNew, Elements;
    WithAllNewElements(Succ(deps0, dependent), done);
    forall x | x in deps ensures NoDuplicates(deps[x]) {
      assert NoDuplicates(Succ(deps0, x));
      assert deps[x] == Succ(deps, x);
    }
  }

  lemma BackwardNoDuplicates(rdeps0: Adjacency, dependent: nat, done: seq<nat>, extra: set<nat>, rdeps: Adjacency)
    requires forall x | x in rdeps0 :: NoDuplicates(rdeps0[x])
    requires RecordedBackward(rdeps0, dependent, done, extra, rdeps)
    ensures forall x | x in rdeps :: NoDuplicates(rdeps[x])
  {
    hide WithAllNew, Elements;
    forall x | x in rdeps ensures NoDuplicates(rdeps[x]) {
      assert NoDuplicates(Succ(rdeps0, x));
      assert rdeps[x] == Succ(rdeps, x);
    }
  }

  /** Recording keeps the two directions in step. */
  lemma RecordedConsistent(deps0: Adjacency, rdeps0: Adjacency, dependent: nat, done: seq<nat>, deps: Adjacency,
                           rdeps: Adjacency)
    requires Consistent(deps0, rdeps0)
    requires RecordedForward(deps0, dependent, done, deps)
             && RecordedBackward(rdeps0, dependent, done, {dependent}, rdeps)
    ensures Consistent(deps, rdeps)
  {
    RecordedMirrors(deps0, rdeps0, dependent, done, {dependent}, deps, rdeps);
    ForwardNoDuplicates(deps0, dependent, done, deps);
    BackwardNoDuplicates(rdeps0, dependent, done, {dependent}, rdeps);
    hide Mirrors, NoDuplicates;
    assert deps.Keys == rdeps.Keys;
  }

  lemma AddEmptyEntry(rdeps0: Adjacency, dependent: nat, done: seq<nat>, rdeps: Adjacency)
    requires RecordedBackward(rdeps0, dependent, done, {}, rdeps)
    ensures RecordedBackward(rdeps0, dependent, done, {dependent},
                             if dependent in rdeps then rdeps else rdeps[dependent := []])
  {
    var rdeps1 := if dependent in rdeps then rdeps else rdeps[dependent := []];
    assert forall y: nat :: Succ(rdeps1, y) == Succ(rdeps, y);
    assert rdeps1.Keys == rdeps.Keys + {dependent};
  }

  lemma DependentsAreClosed(deps: Adjacency, rdeps: Adjacency, id: nat)
    requires Consistent(deps, rdeps)
    ensures Closed(rdeps) && Inside(rdeps, Succ(rdeps, id))
  {
    forall x, y | x in rdeps && y in rdeps[x] ensures y in rdeps {
      assert y in Succ(rdeps, x);
      assert x in Succ(deps, y);
    }
  }

  lemma RecordedLists(deps0: Adjacency, rdeps0: Adjacency, dependent: nat, done: seq<nat>, deps: Adjacency,
                      rdeps: Adjacency)
    requires RecordedForward(deps0, dependent, done, deps)
             && RecordedBackward(rdeps0, dependent, done, {dependent}, rdeps)
    ensures var before := Succ(deps0, dependent); Succ(deps, dependent) == before + New(done, Elements(before))
    ensures forall x: nat :: Succ(rdeps, x) == Succ(rdeps0, x)
              + if x in done && dependent !in Succ(rdeps0, x) then [dependent] else []
  {
    WithAllNewIs(Succ(deps0, dependent), done);
    hide WithAllNew, Succ, New;
    forall x: nat ensures Succ(rdeps, x) == Succ(rdeps0, x)
              + if x in done && dependent !in Succ(rdeps0, x) then [dependent] else []
    {
      assert Succ(rdeps0, x) + [] == Succ(rdeps0, x);
    }
  }

  class DependencyGraph {
    var dependencies: Adjacency
    var dependents: Adjacency

    ghost predicate Valid()
      reads this
    {
      Consistent(dependencies, dependents)
    }

    constructor ()
      ensures Valid() && dependencies == map[] && dependents == map[]
    {
      dependencies, dependents := map[], map[];
    }

    /** The list with x appended unless a search finds it there already. */
    static method AddIfAbsent(list: seq<nat>, x: nat) returns (out: seq<nat>)
      ensures out == WithNew(list, x)
    {
      for i := 0 to |list|
        invariant x !in list[..i]
      {
        if list[i] == x {
          return list;
        }
        assert list[..i + 1] == list[..i] + [list[i]];
      }
      assert list[..|list|] == list;
      out := list + [x];
    }

    /**
     Records that dependent depends on every node of deps: new dependencies go to the end of its list in order,
     dependent goes to the end of the list of each of them, and every node gets an entry in both maps.
     */
    method RecordDependency(dependent: nat, deps: seq<nat>)
      requires Valid()
      modifies this
      ensures Valid()
      ensures RecordedForward(old(dependencies), dependent, deps, dependencies)
      ensures RecordedBackward(old(dependents), dependent, deps, {dependent}, dependents)
      ensures var before := Succ(old(dependencies), dependent);
        GetDependencies(dependent) == before + New(deps, Elements(before))
      ensures forall x: nat :: GetDependents(x) == Succ(old(dependents), x)
                + if x in deps && dependent !in Succ(old(dependents), x) then [dependent] else []
    {
      hide RecordedForward, RecordedBackward, Consistent;
      ghost var deps0, rdeps0 := dependencies, dependents;
      RecordNothing(deps0, rdeps0, dependent);
      if dependent !in dependencies {
        dependencies := dependencies[dependent := []];
      }
      for i := 0 to |deps|
        invariant dependent in dependencies
        invariant RecordedForward(deps0, dependent, deps[..i], dependencies)
        invariant RecordedBackward(rdeps0, dependent, deps[..i], {}, dependents)
      {
        assert deps[..i + 1] == deps[..i] + [deps[i]];
        RecordForward(deps0, dependent, deps[..i], dependencies, deps[i]);
        RecordBackward(rdeps0, dependent, deps[..i], dependents, deps[i]);
        RecordEdge(dependent, deps[i]);
      }
      assert deps[..|deps|] == deps;
      AddEmptyEntry(rdeps0, dependent, deps, dependents);
      if dependent !in dependents {
        dependents := dependents[dependent := []];
      }
      RecordedConsistent(deps0, rdeps0, dependent, deps, dependencies, dependents);
      RecordedLists(deps0, rdeps0, dependent, deps, dependencies, dependents);
    }

    /** One edge, in both directions; the node depended on gets an entry of its own. */
    method RecordEdge(dependent: nat, d: nat)
      requires dependent in dependencies
      modifies this
      ensures var deps1 := old(dependencies)[dependent := WithNew(Succ(old(dependencies), dependent), d)];
        dependencies == if d in deps1 then deps1 else deps1[d := []]
      ensures dependents == old(dependents)[d := WithNew(Succ(old(dependents), d), dependent)]
    {
      var list := AddIfAbsent(dependencies[dependent], d);
      dependencies := dependencies[dependent := list];
      if d !in dependencies {
        dependencies := dependencies[d := []];
      }
      var rlist := AddIfAbsent(Succ(dependents, d), dependent);
      dependents := dependents[d := rlist];
    }

    function GetDependencies(id: nat): seq<nat>
      reads this
    {
      Succ(dependencies, id)
    }

    function GetDependents(id: nat): seq<nat>
      reads this
    {
      Succ(dependents, id)
    }

    /** All nodes that depend on id, directly or through others, each once: depth first, from the last recorded one. */
    method GetTransitiveDependents(id: nat) returns (result: seq<nat>)
      requires Valid()
      ensures Closed(dependents) && Inside(dependents, GetDependents(id))
      ensures result == Preorder(dependents, GetDependents(id), {})
      ensures NoDuplicates(result)
      ensures forall y: nat :: y in result <==> Reaches(dependencies, y, id)
    {
      DependentsAreClosed(dependencies, dependents, id);
      result := DependentsOf(id);
      assert NoDuplicates(result) && forall y: nat :: y in result <==> Reaches(dependencies, y, id) by {
        forall y: nat ensures y in result <==> Reaches(dependencies, y, id) {
          MirrorReaches(dependencies, dependents, y, id);
        }
      }
    }

    method DependentsOf(id: nat) returns (result: seq<nat>)
      requires Valid() && Closed(dependents) && Inside(dependents, GetDependents(id))
      ensures result == Preorder(dependents, GetDependents(id), {})
      ensures NoDuplicates(result) && forall y: nat :: y in result <==> Reaches(dependents, id, y)
    {
      hide Consistent, Preorder, Closed, Unvisited;
      result := [];
      var visited: set<nat> := {};
      var workList := GetDependents(id);
      ghost var all := workList;
      ghost var nodes := dependents.Keys;
      forall x | x in workList ensures Reaches(dependents, id, x) {
        EdgeReaches(dependents, id, x);
      }
      while workList != []
        invariant NoDuplicates(result) && (forall x: nat :: x in visited <==> x in result)
        invariant visited <= nodes && Inside(dependents, workList)
        invariant result + Preorder(dependents, workList, visited) == Preorder(dependents, all, {})
        invariant forall x | x in workList :: Reaches(dependents, id, x)
        invariant forall x | x in result :: Reaches(dependents, id, x)
        invariant forall x | x in Succ(dependents, id) :: x in visited || x in workList
        invariant forall w | w in visited :: forall x | x in Succ(dependents, w) :: x in visited || x in workList
        decreases nodes - visited, |workList|
      {
        var current := workList[|workList| - 1];
        ghost var before := workList;
        workList := workList[..|workList| - 1];
        assert before == workList + [current];
        PreorderLast(dependents, workList, current, visited);
        if current !in visited {
          StackStep(dependents, workList, current, visited);
          result := result + [current];
          visited := visited + {current};
          workList := PushUnvisited(workList, visited, GetDependents(current));
          forall x | x in GetDependents(current) ensures Reaches(dependents, id, x) {
            ReachesFurther(dependents, id, current, x);
          }
        }
      }
      PreorderOfNone(dependents, visited);
      assert result + [] == result;
      forall y: nat ensures y in result <==> Reaches(dependents, id, y) {
        if Reaches(dependents, id, y) {
          var p :| Connects(dependents, p, id, y);
          ReachedInClosed(dependents, id, y, p, visited);
        }
      }
    }

    /** Appends to the work list those of ds that have not been visited. */
    static method PushUnvisited(workList: seq<nat>, visited: set<nat>, ds: seq<nat>) returns (out: seq<nat>)
      ensures out == workList + Unvisited(ds, visited)
      ensures forall x: nat :: x in out <==> x in workList || (x in ds && x !in visited)
    {
      out := workList;
      for i := 0 to |ds|
        invariant out == workList + Unvisited(ds[..i], visited)
        invariant forall x: nat :: x in out <==> x in workList || (x in ds[..i] && x !in visited)
      {
        assert ds[..i + 1] == ds[..i] + [ds[i]];
        assert ds[..i + 1][..i] == ds[..i];
        if ds[i] !in visited {
          out := out + [ds[i]];
        }
      }
      assert ds[..|ds|] == ds;
    }

    /** Depth-first search with three colours: an edge to a grey node closes a cycle. */
    method HasCycle() returns (cyclic: bool)
      requires Valid()
      ensures cyclic <==> Cyclic(dependencies)
    {
      hide DfsInv, Consistent;
      var adj := dependencies;
      var color: map<nat, Color> := map[];
      ghost var order: seq<nat> := [];
      var starts := adj.Keys;
      NothingSeen(adj);
      while starts != {}
        invariant starts <= adj.Keys
        invariant DfsInv(adj, color, [], order)
        invariant forall x | x in adj && x !in starts :: ColorOf(color, x) == Black
        decreases starts
      {
        var start :| start in starts;
        starts := starts - {start};
        if ColorOf(color, start) != Black {
          NoGreyLeft(adj, color, order, start);
          cyclic, color, order := Search(adj, color, start, order);
          if cyclic {
            return;
          }
        }
      }
      BlackRanked(adj, color, order);
      RankedAcyclic(adj, order);
      cyclic := false;
    }
  }
}
