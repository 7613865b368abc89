/** Links between diagnostics: the chain of links from one of them, and the search for cyclic references. */
module CrossRef {
  import opened Sequences
  import opened GraphTheory

  /** Diagnostics are identified by address, here by number. */
  datatype Link = Link(source: nat, target: nat, relation: string)

  predicate HasLink(links: seq<Link>, x: nat, y: nat) {
    exists i | 0 <= i < |links| :: links[i].source == x && links[i].target == y
  }

  /** x is at most n links away from root. */
  predicate Near(links: seq<Link>, root: nat, x: nat, n: nat)
    decreases n
  {
    x == root
    || (n > 0 && exists i | 0 <= i < |links| :: links[i].target == x && Near(links, root, links[i].source, n - 1))
  }

  lemma {:induction false} NearMonotone(links: seq<Link>, root: nat, x: nat, m: nat, n: nat)
    requires m <= n && Near(links, root, x, m)
    ensures Near(links, root, x, n)
    decreases m
  {
    if x != root {
      var i :| 0 <= i < |links| && links[i].target == x && Near(links, root, links[i].source, m - 1);
      NearMonotone(links, root, links[i].source, m - 1, n - 1);
    }
  }

  /** Numbers of the links from x among the first j, in order. */
  function LinksFrom(links: seq<Link>, x: nat, j: nat): seq<nat>
    requires j <= |links|
  {
    if j == 0 then []
    else if links[j - 1].source == x then LinksFrom(links, x, j - 1) + [j - 1]
    else LinksFrom(links, x, j - 1)
  }

  lemma {:induction false} LinksFromExact(links: seq<Link>, x: nat, j: nat)
    requires j <= |links|
    ensures forall i: nat :: i in LinksFrom(links, x, j) <==> i < j && links[i].source == x
    ensures NoDuplicates(LinksFrom(links, x, j))
  {
    if j > 0 {
      LinksFromExact(links, x, j - 1);
      assert j - 1 !in LinksFrom(links, x, j - 1);
    }
  }

  /** chain are the links with the given numbers. */
  predicate Selects(links: seq<Link>, numbers: seq<nat>, chain: seq<Link>) {
    |chain| == |numbers| && forall k | 0 <= k < |numbers| :: numbers[k] < |links| && chain[k] == links[numbers[k]]
  }

  /** Where the links with these numbers lead. */
  function Targets(links: seq<Link>, numbers: seq<nat>): seq<nat>
  {
    seq(|numbers|, k requires 0 <= k < |numbers| => TargetOf(links, numbers[k]))
  }

  function TargetOf(links: seq<Link>, i: nat): nat {
    if i < |links| then links[i].target else 0
  }

  /** root, and then the others in the order in which these links first lead to them. */
  function Reached(links: seq<Link>, root: nat, numbers: seq<nat>): seq<nat>
  {
    [root] + New(Targets(links, numbers), {root})
  }

  /** Link m goes before link n: it was added earlier, if they have one source, else its source comes earlier in
    * order. */
  predicate GoesBefore(links: seq<Link>, order: seq<nat>, m: nat, n: nat) {
    && m < |links| && n < |links|
    && if links[m].source == links[n].source then m < n
       else exists i, j :: 0 <= i < j < |order| && order[i] == links[m].source && order[j] == links[n].source
  }

  ghost predicate Ordered(links: seq<Link>, order: seq<nat>, numbers: seq<nat>) {
    forall a, b | 0 <= a < b < |numbers| :: GoesBefore(links, order, numbers[a], numbers[b])
  }

  /**
   What the chain holds: the links whose source is fewer than limit links away from root, each exactly once,
   and no source closer to root than the source of an earlier link. The links of one source stand in the order in
   which they were added, and the sources in the order in which the chain itself reaches them.
   */
  ghost predicate IsChain(links: seq<Link>, root: nat, limit: nat, numbers: seq<nat>) {
    && NoDuplicates(numbers)
    && (forall i: nat :: i in numbers <==> i < |links| && limit > 0 && Near(links, root, links[i].source, limit - 1))
    && (forall a, b, n: nat | 0 <= a < b < |numbers| && numbers[a] < |links| && numbers[b] < |links| ::
          Near(links, root, links[numbers[b]].source, n) ==> Near(links, root, links[numbers[a]].source, n))
    && Ordered(links, Reached(links, root, numbers), numbers)
  }

  /** The chain, as links: each stands for one place in the list of links. */
  ghost predicate IsChainOf(links: seq<Link>, root: nat, limit: nat, chain: seq<Link>) {
    exists numbers: seq<nat> :: IsChain(links, root, limit, numbers) && Selects(links, numbers, chain)
  }

  /** Exactly the discovered nodes have a distance. */
  ghost predicate Covers(depth: map<nat, nat>, order: seq<nat>) {
    forall x: nat :: x in depth <==> x in order
  }

  /**
   The search after the first k nodes of order, the nodes in order of discovery, have been expanded.
   depth is the distance assigned to each discovered node.
   */
  ghost predicate Searched(links: seq<Link>, root: nat, limit: nat, order: seq<nat>, depth: map<nat, nat>, k: nat) {
    && Covers(depth, order)
    && Discovered(links, root, limit, order, depth)
    && Layered(order, depth, k)
    && AllExpanded(links, limit, order, depth, k)
  }

  ghost predicate Discovered(links: seq<Link>, root: nat, limit: nat, order: seq<nat>, depth: map<nat, nat>)
    requires Covers(depth, order)
  {
    && NoDuplicates(order) && root in order
    && depth[root] == 0
    && (forall x | x in order :: depth[x] <= limit && Near(links, root, x, depth[x]))
  }

  /** Distances do not decrease along order, and the nodes still to expand span at most two layers. */
  ghost predicate Layered(order: seq<nat>, depth: map<nat, nat>, k: nat)
    requires Covers(depth, order)
  {
    && k <= |order|
    && (forall i, j | 0 <= i < j < |order| :: depth[order[i]] <= depth[order[j]])
    && (forall i | k <= i < |order| :: depth[order[i]] <= depth[order[k]] + 1)
  }

  /** Every link from x leads to a discovered node at most one further. */
  predicate Expanded(links: seq<Link>, x: nat, depth: map<nat, nat>) {
    && x in depth
    && forall i | 0 <= i < |links| && links[i].source == x ::
         links[i].target in depth && depth[links[i].target] <= depth[x] + 1
  }

  lemma StartSearch(links: seq<Link>, root: nat, limit: nat)
    ensures Searched(links, root, limit, [root], map[root := 0], 0)
  {
  }

  /** A node at the depth limit is not expanded. */
  lemma SkipDeep(links: seq<Link>, root: nat, limit: nat, order: seq<nat>, depth: map<nat, nat>, k: nat)
    requires Searched(links, root, limit, order, depth, k) && k < |order| && depth[order[k]] >= limit
    ensures Searched(links, root, limit, order, depth, k + 1)
  {
  }

  function AllAt(xs: seq<nat>, d: nat): map<nat, nat> {
    map x | x in xs :: d
  }

  /** Expanding the next node: found are the nodes that its links newly discover. */
  lemma ExpandNext(links: seq<Link>, root: nat, limit: nat, order: seq<nat>, depth: map<nat, nat>, k: nat,
                   found: seq<nat>)
    requires Searched(links, root, limit, order, depth, k) && k < |order| && depth[order[k]] < limit
    requires NoDuplicates(found) && (forall x | x in found :: x !in depth && HasLink(links, order[k], x))
    requires forall i | 0 <= i < |links| && links[i].source == order[k] ::
             links[i].target in depth || links[i].target in found
    ensures Searched(links, root, limit, order + found, depth + AllAt(found, depth[order[k]] + 1), k + 1)
  {
    hide Near;
    var cur := order[k];
    var order' := order + found;
    var depth' := depth + AllAt(found, depth[cur] + 1);
    ExpandDiscovered(links, root, limit, order, depth, cur, found);
    ExpandLayered(order, depth, k, found);
    ExpandCurrent(links, order, depth, k, found);
    ExpandEarlier(links, limit, order, depth, k, found);
  }

  /** The nodes expanded so far stay expanded, and so is the next one. */
  lemma ExpandEarlier(links: seq<Link>, limit: nat, order: seq<nat>, depth: map<nat, nat>, k: nat, found: seq<nat>)
    requires Covers(depth, order) && k < |order| && (forall x | x in found :: x !in depth)
    requires AllExpanded(links, limit, order, depth, k)
    requires Covers(depth + AllAt(found, depth[order[k]] + 1), order + found)
    requires Expanded(links, order[k], depth + AllAt(found, depth[order[k]] + 1))
    ensures var depth' := depth + AllAt(found, depth[order[k]] + 1);
      AllExpanded(links, limit, order + found, depth', k + 1)
  {
    hide Expanded;
    var order' := order + found;
    var depth' := depth + AllAt(found, depth[order[k]] + 1);
    forall i | 0 <= i < k + 1 && depth'[order'[i]] < limit ensures Expanded(links, order'[i], depth') {
      assert order'[i] == order[i];
      if i < k {
        assert depth'[order[i]] == depth[order[i]];
        ExpandedKept(links, order[i], depth, AllAt(found, depth[order[k]] + 1));
      }
    }
  }

  predicate AllExpanded(links: seq<Link>, limit: nat, order: seq<nat>, depth: map<nat, nat>, k: nat)
    requires forall x | x in order :: x in depth
  {
    forall i | 0 <= i < k && i < |order| && depth[order[i]] < limit :: Expanded(links, order[i], depth)
  }

  lemma ExpandedKept(links: seq<Link>, x: nat, depth: map<nat, nat>, more: map<nat, nat>)
    requires Expanded(links, x, depth) && depth.Keys !! more.Keys
    ensures Expanded(links, x, depth + more)
  {
  }

  lemma ExpandCurrent(links: seq<Link>, order: seq<nat>, depth: map<nat, nat>, k: nat, found: seq<nat>)
    requires Covers(depth, order) && Layered(order, depth, k) && k < |order|
    requires forall x | x in found :: x !in depth
    requires forall i | 0 <= i < |links| && links[i].source == order[k] ::
             links[i].target in depth || links[i].target in found
    ensures Expanded(links, order[k], depth + AllAt(found, depth[order[k]] + 1))
  {
    var d := depth[order[k]];
    var depth' := depth + AllAt(found, d + 1);
    forall l | 0 <= l < |links| && links[l].source == order[k]
      ensures links[l].target in depth' && depth'[links[l].target] <= d + 1
    {
      if links[l].target in depth {
        var m :| 0 <= m < |order| && order[m] == links[l].target;
        assert m < k ==> depth[order[m]] <= depth[order[k]];
      }
    }
  }

  lemma ExpandDiscovered(links: seq<Link>, root: nat, limit: nat, order: seq<nat>, depth: map<nat, nat>, cur: nat,
                         found: seq<nat>)
    requires Covers(depth, order) && Discovered(links, root, limit, order, depth) && cur in order && depth[cur] < limit
    requires NoDuplicates(found) && (forall x | x in found :: x !in depth && HasLink(links, cur, x))
    ensures Covers(depth + AllAt(found, depth[cur] + 1), order + found)
    ensures Discovered(links, root, limit, order + found, depth + AllAt(found, depth[cur] + 1))
  {
    var order' := order + found;
    var depth' := depth + AllAt(found, depth[cur] + 1);
    forall x | x in order' ensures depth'[x] <= limit && Near(links, root, x, depth'[x]) {
      if x in order {
        assert depth'[x] == depth[x];
      } else {
        var i :| 0 <= i < |links| && links[i].source == cur && links[i].target == x;
        assert Near(links, root, links[i].source, depth[cur]);
        assert Near(links, root, x, depth[cur] + 1);
      }
    }
    assert NoDuplicates(order') by {
      forall i, j | 0 <= i < j < |order'| ensures order'[i] != order'[j] {
        if j >= |order| {
          assert order'[j] == found[j - |order|] && found[j - |order|] in found;
          if i < |order| { assert order[i] in order; } else { assert order'[i] == found[i - |order|]; }
        }
      }
    }
  }

  lemma ExpandCovers(order: seq<nat>, depth: map<nat, nat>, found: seq<nat>, d: nat)
    requires Covers(depth, order) && forall x | x in found :: x !in depth
    ensures Covers(depth + AllAt(found, d), order + found)
    ensures forall i | 0 <= i < |order| :: (depth + AllAt(found, d))[order[i]] == depth[order[i]]
    ensures forall i | 0 <= i < |found| :: found[i] in found && (depth + AllAt(found, d))[found[i]] == d
  {
  }

  /** ds are the depths of the nodes of order. */
  ghost predicate DepthsAre(order: seq<nat>, depth: map<nat, nat>, ds: seq<nat>) {
    |ds| == |order| && forall i | 0 <= i < |order| :: order[i] in depth && depth[order[i]] == ds[i]
  }

  predicate LayeredDepths(ds: seq<nat>, k: nat) {
    && k <= |ds|
    && (forall i, j | 0 <= i < j < |ds| :: ds[i] <= ds[j])
    && (forall i | k <= i < |ds| :: ds[i] <= ds[k] + 1)
  }

  lemma LayeredAsDepths(order: seq<nat>, depth: map<nat, nat>, ds: seq<nat>, k: nat)
    requires Covers(depth, order) && DepthsAre(order, depth, ds)
    ensures Layered(order, depth, k) == LayeredDepths(ds, k)
  {
  }

  lemma LayeredExtend(ds: seq<nat>, k: nat, more: seq<nat>)
    requires LayeredDepths(ds, k) && k < |ds| && forall i | 0 <= i < |more| :: more[i] == ds[k] + 1
    ensures LayeredDepths(ds + more, k + 1)
  {
    var s := ds + more;
    assert forall i | |ds| <= i < |s| :: s[i] == more[i - |ds|];
    assert forall i | 0 <= i < |ds| :: s[i] == ds[i] <= ds[k] + 1;
    assert forall i | k < i < |ds| :: ds[k] <= ds[i];
  }

  function DepthsOf(order: seq<nat>, depth: map<nat, nat>): (ds: seq<nat>)
    requires Covers(depth, order)
    ensures DepthsAre(order, depth, ds)
  {
    seq(|order|, i requires 0 <= i < |order| => assert order[i] in order; depth[order[i]])
  }

  lemma ExpandLayered(order: seq<nat>, depth: map<nat, nat>, k: nat, found: seq<nat>)
    requires Covers(depth, order) && Layered(order, depth, k) && k < |order|
    requires forall x | x in found :: x !in depth
    ensures Covers(depth + AllAt(found, depth[order[k]] + 1), order + found)
    ensures Layered(order + found, depth + AllAt(found, depth[order[k]] + 1), k + 1)
  {
    hide Layered, LayeredDepths, AllAt, DepthsOf;
    var d := depth[order[k]] + 1;
    var ds := DepthsOf(order, depth);
    var more := seq(|found|, _ => d);
    ExpandCovers(order, depth, found, d);
    LayeredAsDepths(order, depth, ds, k);
    LayeredExtend(ds, k, more);
    ExpandDepths(order, depth, ds, found, d, more);
    LayeredAsDepths(order + found, depth + AllAt(found, d), ds + more, k + 1);
  }

  lemma ExpandDepths(order: seq<nat>, depth: map<nat, nat>, ds: seq<nat>, found: seq<nat>, d: nat, more: seq<nat>)
    requires DepthsAre(order, depth, ds) && |more| == |found| && forall i | 0 <= i < |more| :: more[i] == d
    requires forall x | x in found :: x !in depth
    ensures DepthsAre(order + found, depth + AllAt(found, d), ds + more)
  {
    var order', depth' := order + found, depth + AllAt(found, d);
    forall i | 0 <= i < |order'| ensures order'[i] in depth' && depth'[order'[i]] == (ds + more)[i] {
      if i >= |order| {
        assert order'[i] == found[i - |order|] && found[i - |order|] in found;
      }
    }
  }

  /** When all discovered nodes have been expanded, every node within the limit has been found, at its distance. */
  lemma {:induction false} FoundWithin(links: seq<Link>, root: nat, limit: nat, order: seq<nat>, depth: map<nat, nat>,
                                       x: nat, n: nat)
    requires Searched(links, root, limit, order, depth, |order|) && n <= limit && Near(links, root, x, n)
    ensures x in order && depth[x] <= n
    decreases n
  {
    if x != root {
      var i :| 0 <= i < |links| && links[i].target == x && Near(links, root, links[i].source, n - 1);
      var y := links[i].source;
      FoundWithin(links, root, limit, order, depth, y, n - 1);
      var m :| 0 <= m < |order| && order[m] == y;
      assert Expanded(links, order[m], depth);
    }
  }

  /** The numbers of the links gathered from the first k nodes of order. */
  function Gathered(links: seq<Link>, limit: nat, order: seq<nat>, depth: map<nat, nat>, k: nat): seq<nat>
    requires k <= |order| && Covers(depth, order)
  {
    if k == 0 then []
    else
      Gathered(links, limit, order, depth, k - 1)
      + if depth[order[k - 1]] < limit then LinksFrom(links, order[k - 1], |links|) else []
  }

  /** Gathering looks only at the nodes it has passed. */
  lemma {:induction false} GatheredPrefix(links: seq<Link>, limit: nat, order: seq<nat>, depth: map<nat, nat>,
                                          order': seq<nat>, depth': map<nat, nat>, k: nat)
    requires k <= |order| && Covers(depth, order) && Covers(depth', order')
    requires order <= order' && forall x | x in order :: depth'[x] == depth[x]
    ensures Gathered(links, limit, order', depth', k) == Gathered(links, limit, order, depth, k)
  {
    if k > 0 {
      GatheredPrefix(links, limit, order, depth, order', depth', k - 1);
      assert order'[k - 1] == order[k - 1];
    }
  }

  /** Link i was gathered from one of the first k nodes. */
  predicate Passed(links: seq<Link>, limit: nat, order: seq<nat>, depth: map<nat, nat>, k: nat, i: nat)
    requires k <= |order| && Covers(depth, order)
  {
    i < |links| && links[i].source in order[..k] && depth[links[i].source] < limit
  }

  lemma {:induction false} GatheredExact(links: seq<Link>, limit: nat, order: seq<nat>, depth: map<nat, nat>, k: nat)
    requires NoDuplicates(order) && Covers(depth, order) && Layered(order, depth, |order|) && k <= |order|
    ensures forall i: nat :: i in Gathered(links, limit, order, depth, k) <==> Passed(links, limit, order, depth, k, i)
    ensures NoDuplicates(Gathered(links, limit, order, depth, k))
    ensures DepthsAscend(links, depth, Gathered(links, limit, order, depth, k))
  {
    if k > 0 {
      var x := order[k - 1];
      var g := Gathered(links, limit, order, depth, k - 1);
      GatheredExact(links, limit, order, depth, k - 1);
      LinksFromExact(links, x, |links|);
      var more := if depth[x] < limit then LinksFrom(links, x, |links|) else [];
      assert order[..k] == order[..k - 1] + [x];
      assert x !in order[..k - 1];
      forall i: nat ensures i in g + more <==> Passed(links, limit, order, depth, k, i) {
        assert i in g <==> Passed(links, limit, order, depth, k - 1, i);
      }
      GatheredAscends(links, depth, g, more, x, order, k);
    }
  }

  predicate DepthsAscend(links: seq<Link>, depth: map<nat, nat>, numbers: seq<nat>) {
    && (forall a | 0 <= a < |numbers| :: numbers[a] < |links| && links[numbers[a]].source in depth)
    && (forall a, b | 0 <= a < b < |numbers| :: depth[links[numbers[a]].source] <= depth[links[numbers[b]].source])
  }

  lemma GatheredAscends(links: seq<Link>, depth: map<nat, nat>, g: seq<nat>, more: seq<nat>, x: nat, order: seq<nat>,
                        k: nat)
    requires 0 < k <= |order| && x == order[k - 1] && Covers(depth, order) && Layered(order, depth, |order|)
    requires DepthsAscend(links, depth, g) && (forall i | i in g :: i < |links| && links[i].source in order[..k - 1])
    requires forall i | i in more :: i < |links| && links[i].source == x
    ensures DepthsAscend(links, depth, g + more)
  {
    var s := g + more;
    forall a | 0 <= a < |s| ensures s[a] < |links| && links[s[a]].source in depth {
      if a >= |g| {
        assert s[a] == more[a - |g|] && more[a - |g|] in more;
        assert x in order;
      }
    }
    forall a, b | 0 <= a < b < |s| ensures depth[links[s[a]].source] <= depth[links[s[b]].source] {
      if b >= |g| {
        assert s[b] == more[b - |g|] && more[b - |g|] in more;
        if a < |g| {
          assert s[a] in g;
          var m :| 0 <= m < k - 1 && order[m] == links[s[a]].source;
        } else {
          assert s[a] == more[a - |g|] && more[a - |g|] in more;
        }
      }
    }
  }

  lemma {:induction false} LinksFromAscend(links: seq<Link>, x: nat, j: nat)
    requires j <= |links|
    ensures forall a, b | 0 <= a < b < |LinksFrom(links, x, j)| :: LinksFrom(links, x, j)[a] < LinksFrom(links, x, j)[b]
  {
    if j > 0 {
      LinksFromAscend(links, x, j - 1);
      LinksFromExact(links, x, j - 1);
      var s := LinksFrom(links, x, j - 1);
      assert forall a | 0 <= a < |s| :: s[a] in s;
    }
  }

  /** Gathering keeps the order of the nodes and, for each of them, of its links. */
  lemma {:induction false} GatheredOrdered(links: seq<Link>, limit: nat, order: seq<nat>, depth: map<nat, nat>, k: nat)
    requires NoDuplicates(order) && Covers(depth, order) && Layered(order, depth, |order|) && k <= |order|
    ensures Ordered(links, order, Gathered(links, limit, order, depth, k))
  {
    hide GoesBefore, LinksFrom, Layered;
    if k > 0 {
      var x, g := order[k - 1], Gathered(links, limit, order, depth, k - 1);
      var more := if depth[x] < limit then LinksFrom(links, x, |links|) else [];
      GatheredOrdered(links, limit, order, depth, k - 1);
      GatheredExact(links, limit, order, depth, k - 1);
      LinksFromExact(links, x, |links|);
      LinksFromAscend(links, x, |links|);
      forall a, b | 0 <= a < b < |g + more| ensures GoesBefore(links, order, (g + more)[a], (g + more)[b]) {
        if b >= |g| {
          assert more[b - |g|] in more && (g + more)[b] == more[b - |g|];
          if a < |g| {
            assert g[a] in g && Passed(links, limit, order, depth, k - 1, g[a]);
            PassedBefore(links, limit, order, depth, k, g[a], more[b - |g|]);
          } else {
            assert more[a - |g|] in more && (g + more)[a] == more[a - |g|];
            OneSource(links, order, more[a - |g|], more[b - |g|]);
          }
        }
      }
    }
  }

  lemma OneSource(links: seq<Link>, order: seq<nat>, m: nat, n: nat)
    requires m < n < |links| && links[m].source == links[n].source
    ensures GoesBefore(links, order, m, n)
  {
  }

  lemma PassedBefore(links: seq<Link>, limit: nat, order: seq<nat>, depth: map<nat, nat>, k: nat, m: nat, n: nat)
    requires 0 < k <= |order| && NoDuplicates(order) && Covers(depth, order)
    requires Passed(links, limit, order, depth, k - 1, m) && n < |links| && links[n].source == order[k - 1]
    ensures GoesBefore(links, order, m, n)
  {
    var i :| 0 <= i < k - 1 && order[..k - 1][i] == links[m].source;
    assert order[i] == links[m].source && order[i] != order[k - 1];
  }

  /** A finished search has gathered exactly the chain. */
  lemma GatheredIsChain(links: seq<Link>, root: nat, limit: nat, order: seq<nat>, depth: map<nat, nat>)
    requires Searched(links, root, limit, order, depth, |order|)
    requires order != [] && order[0] == root && Discovers(links, order, Gathered(links, limit, order, depth, |order|))
    ensures IsChain(links, root, limit, Gathered(links, limit, order, depth, |order|))
  {
    hide Near, Expanded, Layered, Ordered, Targets, New;
    var numbers := Gathered(links, limit, order, depth, |order|);
    GatheredExact(links, limit, order, depth, |order|);
    GatheredOrdered(links, limit, order, depth, |order|);
    assert order[..|order|] == order;
    forall i: nat ensures i in numbers <==> i < |links| && limit > 0 && Near(links, root, links[i].source, limit - 1) {
      if i < |links| {
        GatheredWhenNear(links, root, limit, order, depth, links[i].source);
      }
    }
    forall a, b, n: nat | 0 <= a < b < |numbers| && numbers[a] < |links| && numbers[b] < |links|
                          && Near(links, root, links[numbers[b]].source, n)
      ensures Near(links, root, links[numbers[a]].source, n)
    {
      var x, y := links[numbers[a]].source, links[numbers[b]].source;
      assert numbers[a] in numbers && numbers[b] in numbers;
      if n <= limit {
        FoundWithin(links, root, limit, order, depth, y, n);
      }
      NearMonotone(links, root, x, depth[x], n);
    }
  }

  lemma GatheredWhenNear(links: seq<Link>, root: nat, limit: nat, order: seq<nat>, depth: map<nat, nat>, x: nat)
    requires Searched(links, root, limit, order, depth, |order|)
    ensures (x in order && depth[x] < limit) <==> (limit > 0 && Near(links, root, x, limit - 1))
  {
    if x in order && depth[x] < limit {
      NearMonotone(links, root, x, depth[x], limit - 1);
    }
    if limit > 0 && Near(links, root, x, limit - 1) {
      FoundWithin(links, root, limit, order, depth, x, limit - 1);
    }
  }

  datatype BfsNode = BfsNode(diag: nat, depth: nat)

  function AtDepth(found: seq<nat>, d: nat): seq<BfsNode> {
    seq(|found|, i requires 0 <= i < |found| => BfsNode(found[i], d))
  }

  /** The work queue holds the discovered nodes not yet expanded, with their depths. */
  ghost predicate QueueIs(queue: seq<BfsNode>, order: seq<nat>, depth: map<nat, nat>, k: nat)
    requires Covers(depth, order)
  {
    && k <= |order| && |queue| == |order| - k
    && forall i | 0 <= i < |queue| :: queue[i] == BfsNode(order[k + i], depth[order[k + i]])
  }

  /** The queue, the visited set and the links gathered so far are those of the search. */
  ghost predicate Carries(links: seq<Link>, limit: nat, order: seq<nat>, depth: map<nat, nat>, k: nat,
                          queue: seq<BfsNode>, visited: set<nat>, numbers: seq<nat>, chain: seq<Link>)
    requires Covers(depth, order)
  {
    && visited == depth.Keys
    && QueueIs(queue, order, depth, k)
    && k <= |order| && numbers == Gathered(links, limit, order, depth, k)
    && Selects(links, numbers, chain)
  }

  /** The state of the loop. */
  ghost predicate Following(links: seq<Link>, root: nat, limit: nat, order: seq<nat>, depth: map<nat, nat>, k: nat,
                            queue: seq<BfsNode>, visited: set<nat>, numbers: seq<nat>, chain: seq<Link>) {
    && Searched(links, root, limit, order, depth, k)
    && Carries(links, limit, order, depth, k, queue, visited, numbers, chain)
    && Discovers(links, order, numbers)
  }

  lemma FollowSkip(links: seq<Link>, root: nat, limit: nat, order: seq<nat>, depth: map<nat, nat>, k: nat,
                   queue: seq<BfsNode>, visited: set<nat>, numbers: seq<nat>, chain: seq<Link>)
    requires Following(links, root, limit, order, depth, k, queue, visited, numbers, chain)
    requires queue != [] && queue[0].depth >= limit
    ensures Following(links, root, limit, order, depth, k + 1, queue[1..], visited, numbers, chain)
  {
    hide Discovered, Layered, AllExpanded, LinksFrom, Discovers;
    assert queue[0] == BfsNode(order[k], depth[order[k]]);
    SkipDeep(links, root, limit, order, depth, k);
    forall i | 0 <= i < |queue[1..]| ensures queue[1..][i] == BfsNode(order[k + 1 + i], depth[order[k + 1 + i]]) {
      assert queue[1..][i] == queue[i + 1];
    }
  }

  lemma FollowExpand(links: seq<Link>, root: nat, limit: nat, order: seq<nat>, depth: map<nat, nat>, k: nat,
                     queue: seq<BfsNode>, visited: set<nat>, numbers: seq<nat>, chain: seq<Link>,
                     found: seq<nat>, more: seq<Link>)
    requires Following(links, root, limit, order, depth, k, queue, visited, numbers, chain)
    requires queue != [] && queue[0].depth < limit
    requires NoDuplicates(found) && (forall x | x in found :: x !in visited && HasLink(links, queue[0].diag, x))
    requires forall i | 0 <= i < |links| && links[i].source == queue[0].diag ::
             links[i].target in visited + Elements(found)
    requires Selects(links, LinksFrom(links, queue[0].diag, |links|), more)
    requires FoundInOrder(links, queue[0].diag, visited, found)
    ensures Following(links, root, limit, order + found, depth + AllAt(found, queue[0].depth + 1), k + 1,
                      queue[1..] + AtDepth(found, queue[0].depth + 1), visited + Elements(found),
                      numbers + LinksFrom(links, queue[0].diag, |links|), chain + more)
  {
    hide Discovered, Layered, AllExpanded, LinksFrom, NoDuplicates, HasLink, Gathered, Selects, FoundInOrder, Discovers;
    assert queue[0] == BfsNode(order[k], depth[order[k]]);
    assert forall y: nat :: y in visited <==> y in order;
    ReachedFurther(links, order, visited, numbers, queue[0].diag, found);
    ExpandNext(links, root, limit, order, depth, k, found);
    CarryExpand(links, limit, order, depth, k, queue, visited, numbers, chain, found, more);
  }

  lemma CarryExpand(links: seq<Link>, limit: nat, order: seq<nat>, depth: map<nat, nat>, k: nat,
                    queue: seq<BfsNode>, visited: set<nat>, numbers: seq<nat>, chain: seq<Link>,
                    found: seq<nat>, more: seq<Link>)
    requires Covers(depth, order) && Carries(links, limit, order, depth, k, queue, visited, numbers, chain)
    requires queue != [] && queue[0].depth < limit && (forall x | x in found :: x !in visited)
    requires Selects(links, LinksFrom(links, queue[0].diag, |links|), more)
    requires Covers(depth + AllAt(found, queue[0].depth + 1), order + found)
    ensures Carries(links, limit, order + found, depth + AllAt(found, queue[0].depth + 1), k + 1,
                    queue[1..] + AtDepth(found, queue[0].depth + 1), visited + Elements(found),
                    numbers + LinksFrom(links, queue[0].diag, |links|), chain + more)
  {
    hide LinksFrom, Gathered, Selects, AtDepth;
    assert queue[0] == BfsNode(order[k], depth[order[k]]);
    GatheredExpand(links, limit, order, depth, k, found);
    QueueExpand(queue, order, depth, k, found, queue[0].depth);
    assert (depth + AllAt(found, queue[0].depth + 1)).Keys == visited + Elements(found);
    SelectsAppend(links, numbers, chain, LinksFrom(links, queue[0].diag, |links|), more);
  }

  /** order is the order in which these links lead to its nodes, the first one aside. */
  predicate Discovers(links: seq<Link>, order: seq<nat>, numbers: seq<nat>) {
    order != [] && order == Reached(links, order[0], numbers)
  }

  /** The same for the first j links. */
  predicate FoundSoFar(links: seq<Link>, x: nat, visited: set<nat>, found: seq<nat>, j: nat)
    requires j <= |links|
  {
    found == New(Targets(links, LinksFrom(links, x, j)), visited)
  }

  lemma NothingFound(links: seq<Link>, x: nat, visited: set<nat>)
    ensures FoundSoFar(links, x, visited, [], 0)
  {
    assert Targets(links, []) == [];
  }

  lemma LinksFromNext(links: seq<Link>, x: nat, j: nat)
    requires j < |links|
    ensures LinksFrom(links, x, j + 1) == LinksFrom(links, x, j) + if links[j].source == x then [j] else []
  {
    assert LinksFrom(links, x, j) + [] == LinksFrom(links, x, j);
  }

  lemma FoundNext(links: seq<Link>, x: nat, visited: set<nat>, found: seq<nat>, j: nat)
    requires j < |links| && FoundSoFar(links, x, visited, found, j)
    ensures var y := links[j].target;
      var next := if links[j].source == x && y !in visited && y !in found then found + [y] else found;
      FoundSoFar(links, x, visited, next, j + 1)
  {
    var y, before := links[j].target, LinksFrom(links, x, j);
    LinksFromNext(links, x, j);
    hide LinksFrom, New;
    if links[j].source == x {
      var s := Targets(links, before);
      assert Targets(links, before + [j]) == s + [y];
      NewAppend(s, [y], visited);
      NewOne(y, visited + Elements(s));
      NewElements(s, visited);
      assert found + [] == found;
    } else {
      assert before + [] == before;
    }
  }

  /** When all links have been looked at. */
  lemma AllFound(links: seq<Link>, x: nat, visited: set<nat>, found: seq<nat>)
    requires FoundSoFar(links, x, visited, found, |links|)
    ensures FoundInOrder(links, x, visited, found)
    ensures NoDuplicates(found) && (forall y | y in found :: y !in visited && HasLink(links, x, y))
    ensures forall i | 0 <= i < |links| && links[i].source == x :: links[i].target in visited + Elements(found)
  {
    LinksFromExact(links, x, |links|);
    var numbers := LinksFrom(links, x, |links|);
    hide LinksFrom, New;
    var s := Targets(links, numbers);
    NewElements(s, visited);
    forall y | y in found ensures HasLink(links, x, y) {
      var k :| 0 <= k < |s| && s[k] == y;
      assert numbers[k] in numbers && links[numbers[k]].source == x && links[numbers[k]].target == y;
    }
    forall i: nat | i < |links| && links[i].source == x ensures links[i].target in visited + Elements(found) {
      assert i in numbers;
      var k :| 0 <= k < |numbers| && numbers[k] == i;
      assert s[k] == links[i].target;
    }
  }

  /** The targets of the links from x that have not been visited, in the order of the links. */
  predicate FoundInOrder(links: seq<Link>, x: nat, visited: set<nat>, found: seq<nat>) {
    found == New(Targets(links, LinksFrom(links, x, |links|)), visited)
  }

  lemma ReachedFurther(links: seq<Link>, order: seq<nat>, visited: set<nat>, numbers: seq<nat>, x: nat, found: seq<nat>)
    requires Discovers(links, order, numbers)
    requires (forall y: nat :: y in visited <==> y in order) && FoundInOrder(links, x, visited, found)
    ensures Discovers(links, order + found, numbers + LinksFrom(links, x, |links|))
  {
    hide LinksFrom, New;
    var more := LinksFrom(links, x, |links|);
    var s, t := Targets(links, numbers), Targets(links, more);
    assert Targets(links, numbers + more) == s + t;
    NewAppend(s, t, {order[0]});
    NewElements(s, {order[0]});
    assert forall y :: y in order <==> y == order[0] || y in New(s, {order[0]});
    assert {order[0]} + Elements(s) == visited;
  }

  lemma SelectsAppend(links: seq<Link>, numbers: seq<nat>, chain: seq<Link>, numbers1: seq<nat>, chain1: seq<Link>)
    requires Selects(links, numbers, chain) && Selects(links, numbers1, chain1)
    ensures Selects(links, numbers + numbers1, chain + chain1)
  {
  }

  lemma GatheredExpand(links: seq<Link>, limit: nat, order: seq<nat>, depth: map<nat, nat>, k: nat, found: seq<nat>)
    requires Covers(depth, order) && k < |order| && depth[order[k]] < limit && (forall x | x in found :: x !in depth)
    requires Covers(depth + AllAt(found, depth[order[k]] + 1), order + found)
    ensures Gathered(links, limit, order + found, depth + AllAt(found, depth[order[k]] + 1), k + 1)
      == Gathered(links, limit, order, depth, k) + LinksFrom(links, order[k], |links|)
  {
    var order', depth' := order + found, depth + AllAt(found, depth[order[k]] + 1);
    assert forall x | x in order :: depth'[x] == depth[x];
    GatheredPrefix(links, limit, order, depth, order', depth', k);
    assert order'[k] == order[k];
  }

  lemma QueueExpand(queue: seq<BfsNode>, order: seq<nat>, depth: map<nat, nat>, k: nat, found: seq<nat>, d: nat)
    requires Covers(depth, order) && QueueIs(queue, order, depth, k) && queue != []
    requires (forall x | x in found :: x !in depth) && Covers(depth + AllAt(found, d + 1), order + found)
    ensures QueueIs(queue[1..] + AtDepth(found, d + 1), order + found, depth + AllAt(found, d + 1), k + 1)
  {
    var q' := queue[1..] + AtDepth(found, d + 1);
    var order', depth' := order + found, depth + AllAt(found, d + 1);
    forall i | 0 <= i < |q'| ensures q'[i] == BfsNode(order'[k + 1 + i], depth'[order'[k + 1 + i]]) {
      if i < |queue| - 1 {
        assert q'[i] == queue[i + 1] && order'[k + 1 + i] == order[k + 1 + i];
        assert order[k + 1 + i] in order;
      } else {
        var j := i - (|queue| - 1);
        assert q'[i] == BfsNode(found[j], d + 1) && order'[k + 1 + i] == found[j];
        assert found[j] in found;
      }
    }
  }

  /** The adjacency map that the cycle search builds from the links. */
  function AdjacencyOf(links: seq<Link>): Adjacency {
    if links == [] then map[]
    else
      var n := |links| - 1;
      var adj := AdjacencyOf(links[..n]);
      adj[links[n].source := Succ(adj, links[n].source) + [links[n].target]]
  }

  predicate IsLinkCycle(links: seq<Link>, p: seq<nat>) {
    |p| >= 2 && p[0] == p[|p| - 1] && forall i | 0 <= i < |p| - 1 :: HasLink(links, p[i], p[i + 1])
  }

  lemma {:induction false} AdjacencyExact(links: seq<Link>)
    ensures forall x: nat, y: nat :: y in Succ(AdjacencyOf(links), x) <==> HasLink(links, x, y)
    ensures forall x: nat :: x in AdjacencyOf(links) ==> Succ(AdjacencyOf(links), x) != []
  {
    if links != [] {
      var n := |links| - 1;
      var adj := AdjacencyOf(links[..n]);
      var adj' := AdjacencyOf(links);
      AdjacencyExact(links[..n]);
      forall x: nat, y: nat ensures y in Succ(adj', x) <==> HasLink(links, x, y) {
        HasLinkSplit(links, x, y);
        if x != links[n].source {
          assert Succ(adj', x) == Succ(adj, x);
        }
      }
    }
  }

  lemma HasLinkSplit(links: seq<Link>, x: nat, y: nat)
    requires links != []
    ensures var n := |links| - 1;
      HasLink(links, x, y) <==> HasLink(links[..n], x, y) || (links[n].source == x && links[n].target == y)
  {
    var n := |links| - 1;
    if HasLink(links[..n], x, y) {
      var i :| 0 <= i < n && links[..n][i].source == x && links[..n][i].target == y;
      assert links[i].source == x && links[i].target == y;
    }
    if HasLink(links, x, y) {
      var i :| 0 <= i < |links| && links[i].source == x && links[i].target == y;
      if i < n {
        assert links[..n][i] == links[i];
      }
    }
  }

  lemma AdjacencyNodes(links: seq<Link>, nodes: set<nat>)
    requires forall i | 0 <= i < |links| :: links[i].source in nodes && links[i].target in nodes
    ensures AdjacencyOf(links).Keys <= Nodes(AdjacencyOf(links)) <= nodes
  {
    AdjacencyExact(links);
    var adj := AdjacencyOf(links);
    forall x | x in Nodes(adj) ensures x in nodes {
      if x in adj {
        assert Succ(adj, x)[0] in Succ(adj, x);
        assert HasLink(links, x, Succ(adj, x)[0]);
      } else {
        var y, i :| y in adj && 0 <= i < |adj[y]| && adj[y][i] == x;
        assert x in Succ(adj, y);
        assert HasLink(links, y, x);
      }
    }
  }

  lemma LinkCycles(links: seq<Link>)
    ensures Cyclic(AdjacencyOf(links)) <==> exists p :: IsLinkCycle(links, p)
  {
    AdjacencyExact(links);
    var adj := AdjacencyOf(links);
    if p :| IsCycle(adj, p) {
      assert forall i | 0 <= i < |p| - 1 :: p[i + 1] in Succ(adj, p[i]);
      assert IsLinkCycle(links, p);
    }
    if p :| IsLinkCycle(links, p) {
      assert IsCycle(adj, p);
    }
  }

  lemma FollowStart(links: seq<Link>, root: nat, limit: nat)
    ensures Following(links, root, limit, [root], map[root := 0], 0, [BfsNode(root, 0)], {root}, [], [])
  {
    StartSearch(links, root, limit);
    assert Targets(links, []) == [];
    assert Reached(links, root, []) == [root] + [];
  }

  lemma FoundInUniverse(links: seq<Link>, x: nat, found: seq<nat>, root: nat)
    requires forall y | y in found :: HasLink(links, x, y)
    ensures Elements(found) <= {root} + set i | 0 <= i < |links| :: links[i].target
  {
  }

  lemma FollowEnd(links: seq<Link>, root: nat, limit: nat, order: seq<nat>, depth: map<nat, nat>, k: nat,
                  visited: set<nat>, numbers: seq<nat>, chain: seq<Link>)
    requires Following(links, root, limit, order, depth, k, [], visited, numbers, chain) && order != []
             && order[0] == root
    ensures IsChain(links, root, limit, numbers) && Selects(links, numbers, chain)
  {
    hide IsChain, Gathered;
    assert k == |order|;
    GatheredIsChain(links, root, limit, order, depth);
  }

  class DiagnosticCrossRef {
    var registered: seq<nat>
    var links: seq<Link>

    /** Chains are followed from diagnostics fewer than this many links away. */
    static const MAX_CHAIN_DEPTH: nat := 5

    /** Diagnostics are registered once, and so is either end of every link. */
    ghost predicate Valid()
      reads this
    {
      && NoDuplicates(registered)
      && forall i | 0 <= i < |links| :: links[i].source in registered && links[i].target in registered
    }

    constructor ()
      ensures Valid() && registered == [] && links == []
    {
      registered, links := [], [];
    }

    method RegisterDiag(d: nat)
      requires Valid()
      modifies this`registered
      ensures Valid() && registered == if d in old(registered) then old(registered) else old(registered) + [d]
    {
      for i := 0 to |registered|
        invariant registered == old(registered) && d !in registered[..i]
      {
        if registered[i] == d {
          return;
        }
        assert registered[..i + 1] == registered[..i] + [registered[i]];
      }
      assert registered[..|registered|] == registered;
      registered := registered + [d];
    }

    method AddLink(source: nat, target: nat, relation: string)
      requires Valid()
      modifies this
      ensures Valid() && links == old(links) + [Link(source, target, relation)]
      ensures forall x: nat :: x in registered <==> x in old(registered) || x == source || x == target
    {
      RegisterDiag(source);
      RegisterDiag(target);
      links := links + [Link(source, target, relation)];
    }

    /** Breadth-first search from root. */
    method GetChain(root: nat) returns (chain: seq<Link>)
      ensures IsChainOf(links, root, 5, chain)
    {
      chain := FollowLinks(links, root, MAX_CHAIN_DEPTH);
    }

    static method FollowLinks(links: seq<Link>, root: nat, limit: nat) returns (chain: seq<Link>)
      ensures IsChainOf(links, root, limit, chain)
    {
      hide Near, IsChain, Searched, Gathered, LinksFrom;
      chain := [];
      ghost var numbers: seq<nat> := [];
      var queue := [BfsNode(root, 0)];
      var visited := {root};
      ghost var order: seq<nat>, depth: map<nat, nat>, k: nat := [root], map[root := 0], 0;
      ghost var universe := {root} + set i | 0 <= i < |links| :: links[i].target;
      FollowStart(links, root, limit);
      while queue != []
        invariant Following(links, root, limit, order, depth, k, queue, visited, numbers, chain)
        invariant visited <= universe && order != [] && order[0] == root
        decreases universe - visited, |queue|
      {
        var current := queue[0];
        if current.depth >= limit {
          FollowSkip(links, root, limit, order, depth, k, queue, visited, numbers, chain);
          queue := queue[1..];
        } else {
          var more, found := Expand(links, current, visited);
          FollowExpand(links, root, limit, order, depth, k, queue, visited, numbers, chain, found, more);
          FoundInUniverse(links, current.diag, found, root);
          assert found != [] ==> found[0] in found && found[0] in universe - visited;
          queue := queue[1..] + AtDepth(found, current.depth + 1);
          visited := visited + Elements(found);
          chain := chain + more;
          numbers := numbers + LinksFrom(links, current.diag, |links|);
          order, depth := order + found, depth + AllAt(found, current.depth + 1);
        }
        k := k + 1;
      }
      FollowEnd(links, root, limit, order, depth, k, visited, numbers, chain);
    }

    /** Follows the links from one node: the links, and their targets not visited before, in order. */
    static method Expand(links: seq<Link>, current: BfsNode, visited: set<nat>)
        returns (chain: seq<Link>, found: seq<nat>)
      ensures Selects(links, LinksFrom(links, current.diag, |links|), chain)
      ensures NoDuplicates(found) && (forall x | x in found :: x !in visited && HasLink(links, current.diag, x))
      ensures forall i | 0 <= i < |links| && links[i].source == current.diag ::
              links[i].target in visited + Elements(found)
      ensures FoundInOrder(links, current.diag, visited, found)
    {
      chain, found := [], [];
      assert FoundSoFar(links, current.diag, visited, found, 0) by { NothingFound(links, current.diag, visited); }
      hide LinksFrom, FoundSoFar;
      for j := 0 to |links|
        invariant Selects(links, LinksFrom(links, current.diag, j), chain)
        invariant FoundSoFar(links, current.diag, visited, found, j)
      {
        var link := links[j];
        FoundNext(links, current.diag, visited, found, j);
        LinksFromNext(links, current.diag, j);
        if link.source == current.diag {
          chain := chain + [link];
          if link.target !in visited && link.target !in found {
            found := found + [link.target];
          }
        }
      }
      AllFound(links, current.diag, visited, found);
    }

    /** The links form a cycle if and only if the search says so. */
    method HasCycle() returns (cyclic: bool)
      requires Valid()
      ensures cyclic <==> exists p :: IsLinkCycle(links, p)
    {
      hide DfsInv, Nodes;
      var adj := BuildAdjacency();
      var color: map<nat, Color> := map x | x in registered :: White;
      ghost var order: seq<nat> := [];
      AdjacencyExact(links);
      AllWhite(adj, color);
      LinkCycles(links);
      ghost var nodes := color.Keys;
      AdjacencyNodes(links, nodes);
      var starts := color.Keys;
      while starts != {}
        invariant DfsInv(adj, color, [], order)
        // No step adds a key to the map whose keys this loop walks through.
        invariant color.Keys == nodes && starts <= nodes
        invariant forall x | x in nodes && x !in starts :: ColorOf(color, x) == Black
        decreases starts
      {
        var start :| start in starts;
        starts := starts - {start};
        if color[start] == White {
          cyclic, color, order := Search(adj, color, start, order);
          if cyclic {
            return;
          }
        } else {
          NoGreyLeft(adj, color, order, start);
        }
      }
      BlackRanked(adj, color, order);
      RankedAcyclic(adj, order);
      cyclic := false;
    }

    method BuildAdjacency() returns (adj: Adjacency)
      ensures adj == AdjacencyOf(links)
    {
      adj := map[];
      for i := 0 to |links|
        invariant adj == AdjacencyOf(links[..i])
      {
        assert links[..i + 1][..i] == links[..i];
        adj := adj[links[i].source := Succ(adj, links[i].source) + [links[i].target]];
      }
      assert links[..|links|] == links;
    }
  }
}
