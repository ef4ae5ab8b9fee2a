/** Kahn's algorithm with longest-path depths and a parent chain (scripts/plan_guard.py, `topology`). */
module PlanTopology {
  import opened Common
  import opened Ordering
  import opened DependencyGraph
  import opened PlanGuard

  // ----- what the search knows about one node -----

  /** d is the first node of the order among the deepest dependencies of j listed so far. */
  ghost predicate FirstDeepest(g: Graph, order: seq<Id>, depth: map<Id, int>, j: Id, d: Id)
    requires j in g && j in depth && d in depth && Elements(order) <= depth.Keys
  {
    && d in g[j] && d in order && depth[d] + 1 == depth[j]
    && forall a, b :: 0 <= a < b < |order| && order[b] == d && order[a] in g[j] ==> depth[order[a]] < depth[d]
  }

  ghost predicate NodeOk(g: Graph, order: seq<Id>, indegree: map<Id, int>, depth: map<Id, int>, parent: map<Id, Id>,
                         j: Id)
    requires j in g && indegree.Keys == depth.Keys == g.Keys && Elements(order) <= g.Keys
  {
    && indegree[j] == |g[j] - Elements(order)|
    && depth[j] >= 0
    && (forall d :: d in g[j] && d in order ==> depth[d] < depth[j])
    && (if j in parent then parent[j] in g && FirstDeepest(g, order, depth, j, parent[j]) else depth[j] == 0)
  }

  /** Placing i changes nothing for a node that does not depend on it. */
  lemma PlacingOther(g: Graph, order: seq<Id>, i: Id, indegree: map<Id, int>, depth: map<Id, int>, parent: map<Id, Id>,
                     j: Id)
    requires j in g && indegree.Keys == depth.Keys == g.Keys && Elements(order) <= g.Keys && i in g
    requires NodeOk(g, order, indegree, depth, parent, j) && i !in g[j]
    ensures Elements(order + [i]) <= g.Keys && NodeOk(g, order + [i], indegree, depth, parent, j)
  {
    assert g[j] - Elements(order + [i]) == g[j] - Elements(order);
    forall a, b | 0 <= a < b < |order + [i]| && j in parent && (order + [i])[b] == parent[j] && (order + [i])[a] in g[j]
      ensures depth[(order + [i])[a]] < depth[parent[j]]
    {
      assert b < |order|;
    }
  }

  /** The relaxation of one child j of the node i that has just been placed. */
  lemma PlacingDependency(g: Graph, order: seq<Id>, i: Id, indegree: map<Id, int>, depth: map<Id, int>,
                          parent: map<Id, Id>, j: Id,
                          depth': map<Id, int>, parent': map<Id, Id>)
    requires j in g && indegree.Keys == depth.Keys == g.Keys && Elements(order) <= g.Keys && i in g
    requires NodeOk(g, order, indegree, depth, parent, j) && i in g[j] && i !in order && j !in order && i != j
             && depth[i] >= 0
    requires if depth[i] + 1 > depth[j] then depth' == depth[j := depth[i] + 1] && parent' == parent[j := i]
             else depth' == depth && parent' == parent
    ensures Elements(order + [i]) <= g.Keys
            && NodeOk(g, order + [i], indegree[j := indegree[j] - 1], depth', parent', j)
  {
    hide FirstDeepest;
    var order' := order + [i];
    assert g[j] - Elements(order) == (g[j] - Elements(order')) + {i};
    assert i !in g[j] - Elements(order');
    if depth[i] + 1 > depth[j] {
      NewParent(g, order, i, depth, j, depth');
    } else {
      KeptParent(g, order, i, depth, j, parent[j]);
    }
  }

  /** i becomes the deepest dependency of j, and the first of its depth. */
  lemma NewParent(g: Graph, order: seq<Id>, i: Id, depth: map<Id, int>, j: Id, depth': map<Id, int>)
    requires j in g && depth.Keys == g.Keys && Elements(order) <= g.Keys && i in g && i in g[j] && j !in order && i != j
    requires depth[i] + 1 > depth[j] && depth' == depth[j := depth[i] + 1]
    requires forall d :: d in g[j] && d in order ==> depth[d] < depth[j]
    ensures Elements(order + [i]) <= g.Keys && FirstDeepest(g, order + [i], depth', j, i)
  {
    var order' := order + [i];
    forall a, b | 0 <= a < b < |order'| && order'[b] == i && order'[a] in g[j]
      ensures depth'[order'[a]] < depth'[i]
    {
      assert order'[a] == order[a] && order[a] in order;
    }
    assert order'[|order|] == i;
  }

  lemma KeptParent(g: Graph, order: seq<Id>, i: Id, depth: map<Id, int>, j: Id, parent: Id)
    requires j in g && depth.Keys == g.Keys && Elements(order) <= g.Keys && i in g && i !in order && parent in g
    requires FirstDeepest(g, order, depth, j, parent)
    ensures Elements(order + [i]) <= g.Keys && FirstDeepest(g, order + [i], depth, j, parent)
  {
    var order' := order + [i];
    forall a, b | 0 <= a < b < |order'| && order'[b] == parent && order'[a] in g[j]
      ensures depth[order'[a]] < depth[parent]
    {
      assert parent in order && b < |order|;
      assert order[b] == parent && order[a] in g[j];
    }
  }

  /** Changing the entries of another, unplaced node leaves j as it was. */
  lemma NodeFrame(g: Graph, order: seq<Id>, indegree: map<Id, int>, depth: map<Id, int>, parent: map<Id, Id>, j: Id,
                  indegree': map<Id, int>, depth': map<Id, int>, parent': map<Id, Id>, changed: Id)
    requires j in g && indegree.Keys == depth.Keys == indegree'.Keys == depth'.Keys == g.Keys
             && Elements(order) <= g.Keys
    requires NodeOk(g, order, indegree, depth, parent, j) && changed !in order && changed != j
    requires forall x :: x in g && x != changed ==> indegree'[x] == indegree[x] && depth'[x] == depth[x]
    requires forall x :: x != changed ==> (x in parent <==> x in parent') && (x in parent ==> parent'[x] == parent[x])
    ensures NodeOk(g, order, indegree', depth', parent', j)
  {
  }

  ghost predicate TablesOk(g: Graph, indegree: map<Id, int>, depth: map<Id, int>, order: seq<Id>) {
    indegree.Keys == depth.Keys == g.Keys && Elements(order) <= g.Keys
  }

  /** `later` still wait to be relaxed for the node placed last. */
  ghost predicate AllOk(g: Graph, order: seq<Id>, i: Id, later: seq<Id>, indegree: map<Id, int>, depth: map<Id, int>,
                        parent: map<Id, Id>) {
    && TablesOk(g, indegree, depth, order + [i]) && Elements(order) <= g.Keys && i in g
    && forall j :: j in g ==> NodeOk(g, if j in later then order else order + [i], indegree, depth, parent, j)
  }

  lemma StartRelaxing(g: Graph, order: seq<Id>, i: Id, kids: seq<Id>, indegree: map<Id, int>, depth: map<Id, int>,
                      parent: map<Id, Id>)
    requires TablesOk(g, indegree, depth, order) && i in g
    requires forall j :: j in g ==> NodeOk(g, order, indegree, depth, parent, j)
    requires forall j :: j in kids <==> j in g && i in g[j]
    ensures AllOk(g, order, i, kids, indegree, depth, parent)
  {
    hide NodeOk;
    forall j | j in g && j !in kids ensures NodeOk(g, order + [i], indegree, depth, parent, j) {
      PlacingOther(g, order, i, indegree, depth, parent, j);
    }
  }

  lemma RelaxOne(g: Graph, order: seq<Id>, i: Id, later: seq<Id>, indegree: map<Id, int>, depth: map<Id, int>,
                 parent: map<Id, Id>,
                 depth': map<Id, int>, parent': map<Id, Id>)
    requires later != [] && AllOk(g, order, i, later, indegree, depth, parent)
    requires Distinct(later) && i !in order
    requires var j := later[0]; j in g && i in g[j] && j !in order && i != j && depth[i] >= 0
    requires var j := later[0];
             if depth[i] + 1 > depth[j] then depth' == depth[j := depth[i] + 1] && parent' == parent[j := i]
             else depth' == depth && parent' == parent
    ensures AllOk(g, order, i, later[1..], indegree[later[0] := indegree[later[0]] - 1], depth', parent')
  {
    hide NodeOk;
    var j := later[0];
    var indegree' := indegree[j := indegree[j] - 1];
    PlacingDependency(g, order, i, indegree, depth, parent, j, depth', parent');
    assert j !in later[1..];
    forall x | x in g && x != j
      ensures NodeOk(g, if x in later[1..] then order else order + [i], indegree', depth', parent', x)
    {
      assert x in later <==> x in later[1..];
      NodeFrame(g, if x in later then order else order + [i], indegree, depth, parent, x,
                indegree', depth', parent', j);
    }
  }

  /** `ready` holds, in kid order, the first k kids that wait for nothing more. */
  ghost predicate ReadyList(ready: seq<Id>, kids: seq<Id>, k: nat, indegree: map<Id, int>) {
    && k <= |kids| && Distinct(ready) && SortedBy(LexLe, ready)
    && forall j :: j in ready <==> j in kids[..k] && j in indegree && indegree[j] == 0
  }

  lemma ReadyListStep(ready: seq<Id>, kids: seq<Id>, k: nat, indegree: map<Id, int>, n: int)
    requires ReadyList(ready, kids, k, indegree) && k < |kids| && Distinct(kids) && SortedBy(LexLe, kids)
    ensures ReadyList(if n == 0 then ready + [kids[k]] else ready, kids, k + 1, indegree[kids[k] := n])
  {
    var j := kids[k];
    assert kids[..k + 1] == kids[..k] + [j];
    assert j !in kids[..k];
    forall x | x in ready ensures x != j && LexLe(x, j) {
      assert x in kids[..k];
    }
  }

  datatype Search = Search(indegree: map<Id, int>, depth: map<Id, int>, parent: map<Id, Id>)

  /** The children loop for the node i that has just left the queue. */
  method Relax(ghost g: Graph, ghost order: seq<Id>, i: Id, kids: seq<Id>, s: Search)
    returns (s': Search, ready: seq<Id>)
    requires TablesOk(g, s.indegree, s.depth, order) && s.indegree.Keys == s.depth.Keys == g.Keys
    requires i in g && i !in order && s.depth[i] >= 0
    requires forall j :: j in g ==> NodeOk(g, order, s.indegree, s.depth, s.parent, j)
    requires forall j :: j in kids <==> j in g && i in g[j]
    requires Distinct(kids) && SortedBy(LexLe, kids)
    requires forall j :: j in kids ==> j !in order && i != j
    ensures s'.indegree.Keys == s'.depth.Keys == g.Keys
    ensures AllOk(g, order, i, [], s'.indegree, s'.depth, s'.parent)
    ensures ReadyList(ready, kids, |kids|, s'.indegree)
    ensures forall j :: j in g && j !in kids ==> s'.indegree[j] == s.indegree[j]
  {
    hide *;
    s', ready := s, [];
    StartRelaxing(g, order, i, kids, s.indegree, s.depth, s.parent);
    assert kids[0..] == kids;
    NoneReady(kids, s.indegree);
    for k := 0 to |kids|
      invariant s'.indegree.Keys == s'.depth.Keys == g.Keys && s'.depth[i] == s.depth[i]
      invariant AllOk(g, order, i, kids[k..], s'.indegree, s'.depth, s'.parent)
      invariant ReadyList(ready, kids, k, s'.indegree)
      invariant forall j :: j in g && j !in kids ==> s'.indegree[j] == s.indegree[j]
    {
      var j := kids[k];
      assert j in kids;
      var depth, parent := s'.depth, s'.parent;
      if depth[i] + 1 > depth[j] {
        depth := depth[j := depth[i] + 1];
        parent := parent[j := i];
      }
      assert kids[k..][0] == j && kids[k..][1..] == kids[k + 1..];
      DistinctSuffix(kids, k);
      RelaxOne(g, order, i, kids[k..], s'.indegree, s'.depth, s'.parent, depth, parent);
      ReadyListStep(ready, kids, k, s'.indegree, s'.indegree[j] - 1);
      s' := Search(s'.indegree[j := s'.indegree[j] - 1], depth, parent);
      if s'.indegree[j] == 0 {
        ready := ready + [j];
      }
    }
    assert kids[|kids|..] == [];
  }

  lemma NoneReady(kids: seq<Id>, indegree: map<Id, int>)
    ensures ReadyList([], kids, 0, indegree)
  {
  }

  lemma DistinctSuffix<T>(s: seq<T>, k: nat)
    requires Distinct(s) && k <= |s|
    ensures Distinct(s[k..])
  {
  }

  // ----- the order in which nodes become ready -----

  /** x has all its dependencies within the first n nodes of the order, and not earlier. */
  ghost predicate ReadyAt(g: Graph, order: seq<Id>, x: Id, n: nat) {
    && x in g && n <= |order|
    && (forall d :: d in g[x] ==> d in order[..n])
    && (n > 0 ==> order[n - 1] in g[x])
  }

  ghost predicate ReadyBefore(m: nat, x: Id, n: nat, y: Id) {
    m < n || (m == n && LexLe(x, y))
  }

  /** `line` lists nodes by the moment they became ready, and by id within one moment. */
  ghost predicate ReadyOrder(g: Graph, order: seq<Id>, line: seq<Id>, at: seq<nat>) {
    && |at| == |line|
    && (forall k :: 0 <= k < |line| ==> ReadyAt(g, order, line[k], at[k]))
    && (forall k, l :: 0 <= k < l < |line| ==> ReadyBefore(at[k], line[k], at[l], line[l]))
  }

  lemma ReadyStays(g: Graph, order: seq<Id>, i: Id, x: Id, n: nat)
    requires ReadyAt(g, order, x, n)
    ensures ReadyAt(g, order + [i], x, n)
  {
    assert (order + [i])[..n] == order[..n];
  }

  lemma ReadyOrderGrows(g: Graph, order: seq<Id>, i: Id, line: seq<Id>, at: seq<nat>, ready: seq<Id>)
    returns (at': seq<nat>)
    requires ReadyOrder(g, order, line, at) && SortedBy(LexLe, ready)
    requires forall x :: x in ready ==> x in g && i in g[x] && g[x] <= Elements(order + [i])
    ensures ReadyOrder(g, order + [i], line + ready, at')
  {
    var n := |order| + 1;
    at' := at + seq(|ready|, _ => n);
    forall k | 0 <= k < |line + ready| ensures ReadyAt(g, order + [i], (line + ready)[k], at'[k]) {
      if k < |line| {
        ReadyStays(g, order, i, line[k], at[k]);
      } else {
        assert (line + ready)[k] in ready;
        assert (order + [i])[..n] == order + [i];
      }
    }
    forall k, l | 0 <= k < l < |line + ready|
      ensures ReadyBefore(at'[k], (line + ready)[k], at'[l], (line + ready)[l])
    {
      if l < |line| {
        assert ReadyBefore(at[k], line[k], at[l], line[l]);
      } else if k < |line| {
        assert ReadyAt(g, order, line[k], at[k]);
      } else {
        assert LexLe(ready[k - |line|], ready[l - |line|]);
      }
    }
  }

  // ----- the queue loop -----

  ghost predicate KahnOk(g: Graph, order: seq<Id>, queue: seq<Id>, s: Search) {
    && TablesOk(g, s.indegree, s.depth, order)
    && Distinct(order + queue)
    && DependenciesFirst(g, order)
    && (forall x :: x in order + queue <==> x in g && s.indegree[x] == 0)
    && (forall j :: j in g ==> NodeOk(g, order, s.indegree, s.depth, s.parent, j))
    && (exists at :: ReadyOrder(g, order, order + queue, at))
  }

  lemma ZeroIndegree(g: Graph, order: seq<Id>, s: Search, x: Id)
    requires TablesOk(g, s.indegree, s.depth, order) && x in g
    requires NodeOk(g, order, s.indegree, s.depth, s.parent, x)
    ensures s.indegree[x] == 0 <==> g[x] <= Elements(order)
    ensures s.depth[x] >= 0
  {
    var waiting := g[x] - Elements(order);
    assert waiting == {} <==> |waiting| == 0;
    forall d | d in g[x] && waiting == {} ensures d in Elements(order) {
      assert d in order || d in waiting;
    }
  }

  lemma QueueHead(g: Graph, order: seq<Id>, queue: seq<Id>, s: Search)
    requires KahnOk(g, order, queue, s) && queue != []
    ensures queue[0] in g && queue[0] !in order && g[queue[0]] <= Elements(order) && s.depth[queue[0]] >= 0
  {
    hide NodeOk, DependenciesFirst, ReadyOrder;
    var i := queue[0];
    assert (order + queue)[|order|] == i;
    assert i in order + queue;
    ZeroIndegree(g, order, s, i);
    forall k | 0 <= k < |order| ensures order[k] != i {
      assert (order + queue)[k] != (order + queue)[|order|];
    }
  }

  lemma KidsAreUnlisted(g: Graph, order: seq<Id>, queue: seq<Id>, s: Search, j: Id)
    requires KahnOk(g, order, queue, s) && queue != []
    requires j in g && queue[0] in g[j]
    ensures j !in order + queue
  {
    hide NodeOk, DependenciesFirst, ReadyOrder;
    QueueHead(g, order, queue, s);
    ZeroIndegree(g, order, s, j);
  }

  lemma PlacedInOrder(g: Graph, order: seq<Id>, i: Id)
    requires DependenciesFirst(g, order) && i in g && g[i] <= Elements(order)
    ensures DependenciesFirst(g, order + [i])
  {
    forall k, d | 0 <= k < |order + [i]| && d in g[(order + [i])[k]] ensures d in (order + [i])[..k] {
      assert (order + [i])[..k] == order[..k];
      if k == |order| { assert order[..k] == order; }
    }
  }

  lemma DistinctConcat<T>(a: seq<T>, b: seq<T>)
    requires Distinct(a) && Distinct(b) && forall x :: x in b ==> x !in a
    ensures Distinct(a + b)
  {
    forall i, j | 0 <= i < j < |a + b| ensures (a + b)[i] != (a + b)[j] {
      if i < |a| <= j { assert b[j - |a|] in b; }
    }
  }

  ghost predicate Relaxed(g: Graph, order: seq<Id>, queue: seq<Id>, s: Search, kids: seq<Id>, s': Search,
                          ready: seq<Id>) {
    && queue != [] && queue[0] in g
    && (forall j :: j in kids <==> j in g && queue[0] in g[j])
    && s.indegree.Keys == s'.indegree.Keys == s'.depth.Keys == g.Keys
    && AllOk(g, order, queue[0], [], s'.indegree, s'.depth, s'.parent)
    && ReadyList(ready, kids, |kids|, s'.indegree)
    && (forall j :: j in g && j !in kids ==> s'.indegree[j] == s.indegree[j])
  }

  lemma ReadyIsUnlisted(g: Graph, order: seq<Id>, queue: seq<Id>, s: Search, kids: seq<Id>, s': Search, ready: seq<Id>)
    requires KahnOk(g, order, queue, s) && Relaxed(g, order, queue, s, kids, s', ready)
    ensures Distinct(order + queue + ready)
    ensures forall x :: x in order + queue + ready <==> x in g && s'.indegree[x] == 0
    ensures forall x :: x in ready ==> x in g && queue[0] in g[x] && g[x] <= Elements(order + [queue[0]])
  {
    hide NodeOk, DependenciesFirst, ReadyOrder;
    assert kids[..|kids|] == kids;
    forall x | x in kids ensures x !in order + queue { KidsAreUnlisted(g, order, queue, s, x); }
    DistinctConcat(order + queue, ready);
    forall x | x in ready ensures g[x] <= Elements(order + [queue[0]]) {
      ZeroIndegree(g, order + [queue[0]], s', x);
    }
  }

  lemma KahnStep(g: Graph, order: seq<Id>, queue: seq<Id>, s: Search, kids: seq<Id>, s': Search, ready: seq<Id>)
    requires KahnOk(g, order, queue, s) && Relaxed(g, order, queue, s, kids, s', ready)
    ensures KahnOk(g, order + [queue[0]], queue[1..] + ready, s')
  {
    hide NodeOk, DependenciesFirst, ReadyOrder, Distinct;
    var i := queue[0];
    QueueHead(g, order, queue, s);
    PlacedInOrder(g, order, i);
    ReadyIsUnlisted(g, order, queue, s, kids, s', ready);
    assert (order + [i]) + (queue[1..] + ready) == order + queue + ready;
    var at :| ReadyOrder(g, order, order + queue, at);
    var at' := ReadyOrderGrows(g, order, i, order + queue, at, ready);
  }

  // ----- start and end of the search -----

  function Roots(indegree: map<Id, int>, ids: seq<Id>): (r: seq<Id>)
    requires forall i :: i in ids ==> i in indegree
    ensures forall x :: x in r <==> x in ids && indegree[x] == 0
    ensures Distinct(ids) ==> Distinct(r)
  {
    if ids == [] then []
    else
      assert forall x :: x in ids <==> x in Init(ids) || x == Last(ids);
      Roots(indegree, Init(ids)) + (if indegree[Last(ids)] == 0 then [Last(ids)] else [])
  }

  ghost predicate StartTables(g: Graph, s: Search) {
    && s.indegree.Keys == g.Keys && (forall x :: x in g ==> s.indegree[x] == |g[x]|)
    && s.depth == (map i | i in g.Keys :: 0) && s.parent == map[]
  }

  lemma StartNode(g: Graph, s: Search, j: Id)
    requires StartTables(g, s) && j in g
    ensures NodeOk(g, [], s.indegree, s.depth, s.parent, j)
  {
    assert g[j] - Elements([]) == g[j];
  }

  lemma StartReady(g: Graph, queue: seq<Id>)
    requires SortedBy(LexLe, queue) && forall x :: x in queue ==> x in g && g[x] == {}
    ensures ReadyOrder(g, [], queue, seq(|queue|, _ => 0))
  {
    forall k | 0 <= k < |queue| ensures ReadyAt(g, [], queue[k], 0) {
      assert queue[k] in queue;
    }
  }

  lemma KahnStart(g: Graph, s: Search, queue: seq<Id>)
    requires StartTables(g, s)
    requires Distinct(queue) && SortedBy(LexLe, queue) && forall x :: x in queue <==> x in g && s.indegree[x] == 0
    ensures KahnOk(g, [], queue, s)
  {
    hide NodeOk, ReadyOrder, SortedBy;
    assert [] + queue == queue;
    forall j | j in g ensures NodeOk(g, [], s.indegree, s.depth, s.parent, j) { StartNode(g, s, j); }
    StartReady(g, queue);
  }

  lemma QueueFits(g: Graph, order: seq<Id>, queue: seq<Id>, s: Search)
    requires KahnOk(g, order, queue, s)
    ensures |order| + |queue| <= |g|
  {
    hide NodeOk, DependenciesFirst, ReadyOrder;
    DistinctCardinality(order + queue);
    SubsetCardinality(Elements(order + queue), g.Keys);
  }

  ghost function LeftOut(g: Graph, s: Search): set<Id>
    requires s.indegree.Keys == g.Keys
  {
    set i | i in g && s.indegree[i] != 0
  }

  lemma LeftOutIsStuck(g: Graph, order: seq<Id>, s: Search)
    requires Closed(g) && KahnOk(g, order, [], s)
    ensures Stuck(g, LeftOut(g, s))
    ensures Elements(order) !! LeftOut(g, s) && Elements(order) + LeftOut(g, s) == g.Keys
  {
    hide NodeOk, ReadyOrder, DependenciesFirst;
    assert order + [] == order;
    var stuck := LeftOut(g, s);
    forall i | i in stuck ensures WaitsFor(g, i, stuck) {
      ZeroIndegree(g, order, s, i);
      var d :| d in g[i] && d !in Elements(order);
      assert d in stuck;
    }
  }

  /** With the queue empty, the nodes left out are exactly those on or below a cycle. */
  lemma LeftOutNode(g: Graph, order: seq<Id>, s: Search, i: Id)
    requires Closed(g) && KahnOk(g, order, [], s) && i in g
    ensures s.indegree[i] != 0 <==> OnOrBelowCycle(g, i)
  {
    hide NodeOk, ReadyOrder, OnOrBelowCycle, Stuck;
    assert order + [] == order;
    LeftOutIsStuck(g, order, s);
    if s.indegree[i] != 0 {
      StuckIsOnOrBelowCycle(g, LeftOut(g, s), i);
    } else {
      OrderedIsNotBelowCycle(g, order, i);
    }
  }

  lemma FullOrderIffAcyclic(g: Graph, order: seq<Id>, s: Search)
    requires Closed(g) && KahnOk(g, order, [], s)
    ensures |order| == |g| <==> !Cyclic(g)
    ensures |order| == |g| ==> TopologicalOrder(g, order)
  {
    hide NodeOk, ReadyOrder, OnOrBelowCycle, Cyclic, Stuck, DependenciesFirst;
    assert order + [] == order;
    LeftOutIsStuck(g, order, s);
    DistinctCardinality(order);
    var stuck := LeftOut(g, s);
    assert |g.Keys| == |order| + |stuck|;
    if Cyclic(g) {
      var i := CycleIsLasso(g);
      LeftOutNode(g, order, s, i);
      assert i in stuck;
    } else if stuck != {} {
      var i :| i in stuck;
      LeftOutNode(g, order, s, i);
      LassoIsCycle(g, i);
    }
  }

  ghost predicate ParentLaw(g: Graph, order: seq<Id>, s: Search, i: Id)
    requires i in g && s.depth.Keys == g.Keys && Elements(order) <= g.Keys
  {
    if i in s.parent then s.parent[i] in g && FirstDeepest(g, order, s.depth, i, s.parent[i]) else s.depth[i] == 0
  }

  lemma PlacedNode(g: Graph, order: seq<Id>, s: Search, i: Id)
    requires TablesOk(g, s.indegree, s.depth, order) && Elements(order) == g.Keys && i in g && g[i] <= g.Keys
    requires NodeOk(g, order, s.indegree, s.depth, s.parent, i)
    ensures DepthLaw(g, s.depth, i) && ParentLaw(g, order, s, i)
  {
    forall d | d in g[i] ensures d in order { assert d in Elements(order); }
  }

  /** With every node placed, depth is the longest path and parent the first deepest dependency. */
  lemma PlacedDepths(g: Graph, order: seq<Id>, s: Search)
    requires Closed(g) && KahnOk(g, order, [], s) && Elements(order) == g.Keys
    ensures forall i :: i in g ==> LongestTo(g, i, s.depth[i]) && ParentLaw(g, order, s, i)
  {
    hide ReadyOrder, NodeOk, ParentLaw, DepthLaw, LongestTo;
    forall i | i in g ensures DepthLaw(g, s.depth, i) && ParentLaw(g, order, s, i) {
      assert NodeOk(g, order, s.indegree, s.depth, s.parent, i);
      PlacedNode(g, order, s, i);
    }
    forall i | i in g ensures LongestTo(g, i, s.depth[i]) {
      DepthIsLongestPath(g, s.depth, i);
    }
  }

  // ----- the report -----

  /** A longest path, chosen by the order: it ends in the first deepest node and follows first deepest dependencies. */
  ghost predicate ChainLaw(g: Graph, order: seq<Id>, depth: map<Id, int>, chain: seq<Id>, maxDepth: int)
    requires depth.Keys == g.Keys && Elements(order) <= g.Keys
  {
    if g == map[] then chain == [] && maxDepth == 0
    else
      && Path(g, chain) && |chain| == maxDepth + 1
      && (forall i :: i in g ==> depth[i] <= maxDepth)
      && depth[Last(chain)] == maxDepth
      && (forall a, b :: 0 <= a < b < |order| && order[b] == Last(chain) ==> depth[order[a]] < maxDepth)
      && (forall k :: 0 < k < |chain| ==> FirstDeepest(g, order, depth, chain[k], chain[k - 1]))
  }

  ghost function Edges(g: Graph): set<(Id, Id)> {
    set i, d | i in g && d in g[i] :: (d, i)
  }

  ghost predicate ReportLaw(g: Graph, r: Report) {
    && r.nodeCount == |g| && r.edgeCount == |Edges(g)|
    && TopologicalOrder(g, r.order)
    && (exists at :: ReadyOrder(g, r.order, r.order, at))
    && r.depths.Keys == g.Keys && (forall i :: i in g ==> LongestTo(g, i, r.depths[i]))
    && ChainLaw(g, r.order, r.depths, r.chain, r.maxDepth)
  }

  /** `max` with a key returns the first of the greatest. */
  method FirstGreatest(order: seq<Id>, depth: map<Id, int>) returns (end: Id)
    requires order != [] && Elements(order) <= depth.Keys
    ensures end in order && (forall i :: i in order ==> depth[i] <= depth[end])
    ensures exists n :: 0 <= n < |order| && order[n] == end && forall a :: 0 <= a < n ==> depth[order[a]] < depth[end]
  {
    var n := 0;
    assert order[0] in Elements(order);
    for k := 1 to |order|
      invariant 0 <= n < k && order[n] in depth
      invariant forall a :: 0 <= a < n ==> depth[order[a]] < depth[order[n]]
      invariant forall a :: 0 <= a < k ==> depth[order[a]] <= depth[order[n]]
    {
      assert order[k] in Elements(order);
      if depth[order[k]] > depth[order[n]] { n := k; }
    }
    end := order[n];
  }

  lemma ExtendChain(g: Graph, order: seq<Id>, depth: map<Id, int>, chain: seq<Id>, d: Id)
    requires depth.Keys == g.Keys && Elements(order) <= g.Keys && d in g
    requires Path(g, chain) && FirstDeepest(g, order, depth, chain[0], d)
    requires forall k :: 0 < k < |chain| ==> FirstDeepest(g, order, depth, chain[k], chain[k - 1])
    ensures Path(g, [d] + chain) && depth[d] + 1 == depth[chain[0]]
    ensures forall k :: 0 < k < |[d] + chain| ==> FirstDeepest(g, order, depth, ([d] + chain)[k], ([d] + chain)[k - 1])
  {
    var longer := [d] + chain;
    forall k | 0 < k < |longer|
      ensures FirstDeepest(g, order, depth, longer[k], longer[k - 1]) && longer[k - 1] in g[longer[k]]
    {
      if k > 1 { assert longer[k] == chain[k - 1] && longer[k - 1] == chain[k - 2]; }
    }
  }

  method LongestChain(ghost g: Graph, order: seq<Id>, s: Search) returns (chain: seq<Id>, maxDepth: int)
    requires s.depth.Keys == g.Keys && TopologicalOrder(g, order)
    requires forall i :: i in g ==> s.depth[i] >= 0 && ParentLaw(g, order, s, i)
    ensures ChainLaw(g, order, s.depth, chain, maxDepth)
  {
    hide FirstDeepest;
    if order == [] {
      assert Elements(order) == {};
      return [], 0;
    }
    var end := FirstGreatest(order, s.depth);
    assert end in Elements(order);
    chain, maxDepth := [end], s.depth[end];
    while chain[0] in s.parent
      invariant Path(g, chain) && Last(chain) == end && |chain| == maxDepth - s.depth[chain[0]] + 1
      invariant forall k :: 0 < k < |chain| ==> FirstDeepest(g, order, s.depth, chain[k], chain[k - 1])
      decreases s.depth[chain[0]]
    {
      assert ParentLaw(g, order, s, chain[0]);
      ExtendChain(g, order, s.depth, chain, s.parent[chain[0]]);
      chain := [s.parent[chain[0]]] + chain;
    }
    assert ParentLaw(g, order, s, chain[0]);
    forall i | i in g ensures s.depth[i] <= maxDepth { assert i in Elements(order); }
  }

  lemma {:induction false} EdgesAfterOneTask(g: Graph, h: Graph, t: Id)
    requires t in g && t !in h && h == g - {t}
    ensures |Edges(g)| == |Edges(h)| + |g[t]|
  {
    var added := set d | d in g[t] :: (d, t);
    assert Edges(g) == Edges(h) + added;
    assert Edges(h) !! added;
    TaggedCardinality(g[t], t);
  }

  lemma {:induction false} TaggedCardinality(s: set<Id>, t: Id)
    ensures |set d | d in s :: (d, t)| == |s|
  {
    if s != {} {
      var x :| x in s;
      TaggedCardinality(s - {x}, t);
      assert (set d | d in s :: (d, t)) == (set d | d in s - {x} :: (d, t)) + {(x, t)};
    }
  }

  /** The loop that sums the sizes of the dependency sets. */
  method CountEdges(tasks: seq<Task>, fields: seq<string>) returns (n: nat)
    requires Distinct(Ids(tasks))
    ensures n == |Edges(PlanGraph(tasks, fields))|
  {
    n := 0;
    assert tasks[..0] == [] && Edges(PlanGraph([], fields)) == {};
    for k := 0 to |tasks|
      invariant Distinct(Ids(tasks[..k])) && n == |Edges(PlanGraph(tasks[..k], fields))|
    {
      CountOneMore(tasks, fields, k);
      n := n + |Deps(tasks[k], fields)|;
    }
    assert tasks[..|tasks|] == tasks;
  }

  lemma FewerIds(tasks: seq<Task>, k: nat)
    requires k <= |tasks| && Distinct(Ids(tasks))
    ensures Distinct(Ids(tasks[..k]))
  {
    forall i, j | 0 <= i < j < k ensures Ids(tasks[..k])[i] != Ids(tasks[..k])[j] {
      assert Ids(tasks)[i] != Ids(tasks)[j];
    }
  }

  /** The graph of one more task is the graph before it with one new node. */
  lemma GraphOneMore(tasks: seq<Task>, fields: seq<string>)
    requires tasks != [] && Distinct(Ids(tasks)) && Distinct(Ids(Init(tasks)))
    ensures var g, h := PlanGraph(tasks, fields), PlanGraph(Init(tasks), fields); var t := Last(tasks).id;
            t in g && g[t] == Deps(Last(tasks), fields) && t !in h && h == g - {t}
  {
    hide Deps, PlanGraph, Distinct;
    PlanGraphStep(tasks, fields);
    LastIdIsNew(tasks, fields);
  }

  lemma PlanGraphStep(tasks: seq<Task>, fields: seq<string>)
    requires tasks != [] && Distinct(Ids(tasks)) && Distinct(Ids(Init(tasks)))
    ensures PlanGraph(tasks, fields) == PlanGraph(Init(tasks), fields)[Last(tasks).id := Deps(Last(tasks), fields)]
  {
    hide Deps, Distinct;
  }

  lemma LastIdIsNew(tasks: seq<Task>, fields: seq<string>)
    requires tasks != [] && Distinct(Ids(tasks)) && Distinct(Ids(Init(tasks)))
    ensures Last(tasks).id !in PlanGraph(Init(tasks), fields)
  {
    hide Deps, PlanGraph;
    forall i | 0 <= i < |Init(tasks)| ensures Ids(Init(tasks))[i] != Last(tasks).id {
      assert Ids(tasks)[i] != Ids(tasks)[|tasks| - 1];
    }
  }

  lemma CountOneMore(tasks: seq<Task>, fields: seq<string>, k: nat)
    requires k < |tasks| && Distinct(Ids(tasks))
    ensures Distinct(Ids(tasks[..k])) && Distinct(Ids(tasks[..k + 1]))
    ensures |Edges(PlanGraph(tasks[..k + 1], fields))| == |Edges(PlanGraph(tasks[..k], fields))|
            + |Deps(tasks[k], fields)|
  {
    hide PlanGraph, Deps, Edges;
    FewerIds(tasks, k);
    FewerIds(tasks, k + 1);
    var fewer, more := tasks[..k], tasks[..k + 1];
    assert Init(more) == fewer && Last(more) == tasks[k];
    GraphOneMore(more, fields);
    EdgesAfterOneTask(PlanGraph(more, fields), PlanGraph(fewer, fields), tasks[k].id);
  }

  lemma WellFormedIsClosed(tasks: seq<Task>, fields: seq<string>)
    requires WellFormed(tasks, fields)
    ensures Closed(PlanGraph(tasks, fields))
  {
    var g := PlanGraph(tasks, fields);
    forall i | i in g ensures g[i] <= g.Keys {
      var k :| 0 <= k < |Ids(tasks)| && Ids(tasks)[k] == i;
      assert CleanTask(tasks[k], fields, Elements(Ids(tasks)));
    }
  }

  method RunKahn(ghost g: Graph, ids: seq<Id>, tables: EdgeTables) returns (order: seq<Id>, s: Search)
    requires Tabulates(g, tables) && Distinct(ids) && Elements(ids) == g.Keys && Closed(g)
    ensures KahnOk(g, order, [], s) && s.indegree.Keys == g.Keys
  {
    hide *;
    order := [];
    var queue := KahnQueue(g, ids, tables);
    s := Search(tables.indegree, map i | i in tables.indegree.Keys :: 0, map[]);
    StartSearch(g, tables, s, queue);
    while queue != []
      invariant KahnOk(g, order, queue, s)
      decreases |g| - |order|
    {
      QueueFits(g, order, queue, s);
      QueueHead(g, order, queue, s);
      var i := queue[0];
      var kids := Sorted(Kids(tables.children, i));
      KidsFacts(g, order, queue, s, tables, kids);
      var s', ready := Relax(g, order, i, kids, s);
      RelaxedFacts(g, order, queue, s, kids, s', ready);
      KahnStep(g, order, queue, s, kids, s', ready);
      order, queue, s := order + [i], queue[1..] + ready, s';
    }
    KahnKeys(g, order, s);
  }

  method KahnQueue(ghost g: Graph, ids: seq<Id>, tables: EdgeTables) returns (queue: seq<Id>)
    requires Tabulates(g, tables) && Distinct(ids) && Elements(ids) == g.Keys
    ensures Distinct(queue) && SortedBy(LexLe, queue) && forall x :: x in queue <==>
            x in g && x in tables.indegree && tables.indegree[x] == 0
  {
    assert forall i :: i in ids ==> i in Elements(ids);
    var roots := Roots(tables.indegree, ids);
    SortedFacts(roots);
    queue := Sorted(roots);
    assert forall x :: x in g ==> x in Elements(ids);
  }

  lemma StartSearch(g: Graph, tables: EdgeTables, s: Search, queue: seq<Id>)
    requires Tabulates(g, tables)
    requires s == Search(tables.indegree, map i | i in tables.indegree.Keys :: 0, map[])
    requires Distinct(queue) && SortedBy(LexLe, queue) && forall x :: x in queue <==>
             x in g && x in tables.indegree && tables.indegree[x] == 0
    ensures KahnOk(g, [], queue, s)
  {
    hide NodeOk, ReadyOrder, SortedBy, KahnOk;
    KahnStart(g, s, queue);
  }

  lemma KahnKeys(g: Graph, order: seq<Id>, s: Search)
    requires KahnOk(g, order, [], s)
    ensures s.indegree.Keys == g.Keys
  {
  }

  lemma SortedKids(g: Graph, tables: EdgeTables, i: Id, kids: seq<Id>)
    requires Tabulates(g, tables) && kids == Sorted(Kids(tables.children, i))
    ensures Distinct(kids) && SortedBy(LexLe, kids) && forall j :: j in kids <==> j in g && i in g[j]
  {
    SortedFacts(Kids(tables.children, i));
  }

  /** What `Relax` asks of the sorted children of the queue head. */
  lemma KidsFacts(g: Graph, order: seq<Id>, queue: seq<Id>, s: Search, tables: EdgeTables, kids: seq<Id>)
    requires KahnOk(g, order, queue, s) && queue != [] && Tabulates(g, tables)
             && kids == Sorted(Kids(tables.children, queue[0]))
    ensures TablesOk(g, s.indegree, s.depth, order) && s.indegree.Keys == s.depth.Keys == g.Keys
    ensures forall j :: j in g ==> NodeOk(g, order, s.indegree, s.depth, s.parent, j)
    ensures forall j :: j in kids <==> j in g && queue[0] in g[j]
    ensures Distinct(kids) && SortedBy(LexLe, kids)
    ensures forall j :: j in kids ==> j !in order && queue[0] != j
  {
    hide NodeOk, ReadyOrder, DependenciesFirst, Distinct, SortedBy, Sorted, Tabulates, Kids;
    SortedKids(g, tables, queue[0], kids);
    forall j | j in kids ensures j !in order && queue[0] != j {
      KidsAreUnlisted(g, order, queue, s, j);
    }
  }

  lemma RelaxedFacts(g: Graph, order: seq<Id>, queue: seq<Id>, s: Search, kids: seq<Id>, s': Search, ready: seq<Id>)
    requires queue != [] && queue[0] in g
    requires s.indegree.Keys == s'.indegree.Keys == s'.depth.Keys == g.Keys
    requires forall j :: j in kids <==> j in g && queue[0] in g[j]
    requires AllOk(g, order, queue[0], [], s'.indegree, s'.depth, s'.parent)
    requires ReadyList(ready, kids, |kids|, s'.indegree)
    requires forall j :: j in g && j !in kids ==> s'.indegree[j] == s.indegree[j]
    ensures Relaxed(g, order, queue, s, kids, s', ready)
  {
  }

  // ----- topology -----

  ghost predicate TopologyOutcome(g: Graph, r: Result<Report, PlanError>) {
    match r
    case Ok(report) => !Cyclic(g) && ReportLaw(g, report)
    case Err(CycleError(ids)) =>
      && Cyclic(g) && Distinct(ids) && SortedBy(LexLe, ids)
      && (forall i :: i in ids <==> i in g && OnOrBelowCycle(g, i))
    case Err(_) => false
  }

  function Blocked(indegree: map<Id, int>, ids: seq<Id>): (r: seq<Id>)
    requires forall i :: i in ids ==> i in indegree
    ensures forall x :: x in r <==> x in ids && indegree[x] != 0
    ensures Distinct(ids) ==> Distinct(r)
  {
    if ids == [] then []
    else
      assert forall x :: x in ids <==> x in Init(ids) || x == Last(ids);
      Blocked(indegree, Init(ids)) + (if indegree[Last(ids)] != 0 then [Last(ids)] else [])
  }

  lemma CycleReport(g: Graph, order: seq<Id>, s: Search, blocked: seq<Id>)
    requires Closed(g) && KahnOk(g, order, [], s) && |order| != |g|
    requires Distinct(blocked) && forall x :: x in blocked <==> x in g && s.indegree[x] != 0
    ensures TopologyOutcome(g, Err(CycleError(Sorted(blocked))))
  {
    hide KahnOk, Closed, Distinct, SortedBy, Sorted, OnOrBelowCycle, Cyclic;
    FullOrderIffAcyclic(g, order, s);
    SortedFacts(blocked);
    forall i | i in g ensures i in blocked <==> OnOrBelowCycle(g, i) {
      LeftOutNode(g, order, s, i);
    }
  }

  lemma GoodReport(g: Graph, order: seq<Id>, s: Search, chain: seq<Id>, maxDepth: int, edges: nat)
    requires Closed(g) && KahnOk(g, order, [], s) && TopologicalOrder(g, order) && !Cyclic(g) && edges == |Edges(g)|
    requires s.depth.Keys == g.Keys && ChainLaw(g, order, s.depth, chain, maxDepth)
    ensures TopologyOutcome(g, Ok(Report(|g|, edges, maxDepth, chain, order, s.depth)))
  {
    hide ReadyOrder, NodeOk, DependenciesFirst, Distinct, LongestTo, ChainLaw, ParentLaw, Cyclic;
    assert order + [] == order;
    PlacedDepths(g, order, s);
  }

  lemma ChainInputs(g: Graph, order: seq<Id>, s: Search)
    requires Closed(g) && KahnOk(g, order, [], s) && TopologicalOrder(g, order)
    ensures s.depth.Keys == g.Keys
    ensures forall i :: i in g ==> s.depth[i] >= 0 && ParentLaw(g, order, s, i)
  {
    hide ReadyOrder, NodeOk, DependenciesFirst, Distinct, LongestTo, ParentLaw;
    PlacedDepths(g, order, s);
    forall i | i in g ensures s.depth[i] >= 0 {
      assert NodeOk(g, order, s.indegree, s.depth, s.parent, i);
      ZeroIndegree(g, order, s, i);
    }
  }

  lemma IdsAreKeys(tasks: seq<Task>, fields: seq<string>)
    requires WellFormed(tasks, fields)
    ensures var g := PlanGraph(tasks, fields);
            Distinct(Ids(tasks)) && Elements(Ids(tasks)) == g.Keys && |Ids(tasks)| == |g|
            && forall i :: i in Ids(tasks) <==> i in g
  {
    DistinctCardinality(Ids(tasks));
    assert forall i :: i in Ids(tasks) <==> i in Elements(Ids(tasks));
  }

  /**
   * The whole of `topology`: a malformed plan gets the first defect, a cyclic one an error that names exactly
   * the ids on or below a cycle, and any other plan a report that obeys `ReportLaw`.
   */
  method Topology(tasks: seq<Task>, fields: seq<string>) returns (r: Result<Report, PlanError>)
    ensures !WellFormed(tasks, fields) ==> r.Err? && FirstDefect(tasks, fields, r.error)
    ensures WellFormed(tasks, fields) ==> TopologyOutcome(PlanGraph(tasks, fields), r)
  {
    hide *;
    var tables := ReadEdges(tasks, fields);
    if tables.Err? { return Err(tables.error); }
    ghost var g := PlanGraph(tasks, fields);
    WellFormedIsClosed(tasks, fields);
    IdsAreKeys(tasks, fields);
    var ids := Ids(tasks);
    var order, s := RunKahn(g, ids, tables.value);
    FullOrderIffAcyclic(g, order, s);
    if |order| != |ids| {
      var blocked := Blocked(s.indegree, ids);
      CycleReport(g, order, s, blocked);
      return Err(CycleError(Sorted(blocked)));
    }
    ChainInputs(g, order, s);
    var chain, maxDepth := LongestChain(g, order, s);
    var edges := CountEdges(tasks, fields);
    GoodReport(g, order, s, chain, maxDepth, edges);
    return Ok(Report(|ids|, edges, maxDepth, chain, order, s.depth));
  }
}
