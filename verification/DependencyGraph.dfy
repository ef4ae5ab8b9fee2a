/** Finite dependency graphs: paths, cycles, topological orders and longest paths. */
module DependencyGraph {
  import opened Common

  type Id = string

  /** Each node with the set of nodes it depends on. */
  type Graph = map<Id, set<Id>>

  ghost predicate Closed(g: Graph) {
    forall i :: i in g ==> g[i] <= g.Keys
  }

  /** Consecutive nodes, each a dependency of the next. */
  ghost predicate Path(g: Graph, p: seq<Id>) {
    && p != []
    && (forall k :: 0 <= k < |p| ==> p[k] in g)
    && (forall k :: 0 < k < |p| ==> p[k - 1] in g[p[k]])
  }

  ghost predicate PathTo(g: Graph, p: seq<Id>, i: Id) {
    Path(g, p) && Last(p) == i
  }

  ghost predicate CyclePath(g: Graph, p: seq<Id>) {
    Path(g, p) && |p| >= 2 && p[0] == Last(p)
  }

  ghost predicate Cyclic(g: Graph) {
    exists p :: CyclePath(g, p)
  }

  /** A path that runs round a cycle and then on to i. */
  ghost predicate Lasso(g: Graph, p: seq<Id>, k: nat, i: Id) {
    PathTo(g, p, i) && 0 < k < |p| && p[0] == p[k]
  }

  ghost predicate OnOrBelowCycle(g: Graph, i: Id) {
    exists p, k: nat :: Lasso(g, p, k, i)
  }

  lemma LassoIsCycle(g: Graph, i: Id)
    requires OnOrBelowCycle(g, i)
    ensures Cyclic(g)
  {
    var p, k: nat :| Lasso(g, p, k, i);
    assert CyclePath(g, p[..k + 1]);
  }

  lemma CycleIsLasso(g: Graph) returns (i: Id)
    requires Cyclic(g)
    ensures i in g && OnOrBelowCycle(g, i)
  {
    var p :| CyclePath(g, p);
    i := p[0];
    assert Lasso(g, p, |p| - 1, i);
  }

  // ----- nodes that never become ready -----

  ghost predicate WaitsFor(g: Graph, i: Id, others: set<Id>) {
    i in g && exists d :: d in g[i] && d in others
  }

  /** Every member of `stuck` waits for a member. */
  ghost predicate Stuck(g: Graph, stuck: set<Id>) {
    stuck <= g.Keys && forall i {:trigger WaitsFor(g, i, stuck)} :: i in stuck ==> WaitsFor(g, i, stuck)
  }

  lemma {:induction false} StuckPath(g: Graph, stuck: set<Id>, i: Id, n: nat) returns (p: seq<Id>)
    requires Stuck(g, stuck) && i in stuck
    ensures |p| == n + 1 && PathTo(g, p, i) && forall k :: 0 <= k < |p| ==> p[k] in stuck
  {
    if n == 0 {
      p := [i];
    } else {
      var tail := StuckPath(g, stuck, i, n - 1);
      assert WaitsFor(g, tail[0], stuck);
      var d :| d in g[tail[0]] && d in stuck;
      p := [d] + tail;
    }
  }

  lemma StuckIsOnOrBelowCycle(g: Graph, stuck: set<Id>, i: Id)
    requires Stuck(g, stuck) && i in stuck
    ensures OnOrBelowCycle(g, i)
  {
    var p := StuckPath(g, stuck, i, |stuck|);
    var a, b := Pigeonhole(p, stuck);
    var q := p[a..];
    assert Lasso(g, q, b - a, i);
  }

  // ----- topological prefixes -----

  /** Every node of the list comes after all its dependencies. */
  ghost predicate DependenciesFirst(g: Graph, order: seq<Id>) {
    forall k :: 0 <= k < |order| ==> order[k] in g && forall d :: d in g[order[k]] ==> d in order[..k]
  }

  ghost predicate TopologicalOrder(g: Graph, order: seq<Id>) {
    Distinct(order) && Elements(order) == g.Keys && DependenciesFirst(g, order)
  }

  lemma {:induction false} PathStaysInOrder(g: Graph, order: seq<Id>, p: seq<Id>, at: nat, k: nat)
    returns (earlier: nat)
    requires DependenciesFirst(g, order)
    requires Path(g, p) && at < |order| && order[at] == Last(p)
    requires k < |p| - 1
    ensures earlier < at && order[earlier] == p[k]
  {
    var d := p[|p| - 2];
    assert d in g[order[at]];
    var previous :| 0 <= previous < at && order[previous] == d;
    if k == |p| - 2 {
      earlier := previous;
    } else {
      earlier := PathStaysInOrder(g, order, Init(p), previous, k);
    }
  }

  lemma OrderedIsNotBelowCycle(g: Graph, order: seq<Id>, i: Id)
    requires Distinct(order) && DependenciesFirst(g, order) && i in order
    ensures !OnOrBelowCycle(g, i)
  {
    if OnOrBelowCycle(g, i) {
      var p, k: nat :| Lasso(g, p, k, i);
      var at :| 0 <= at < |order| && order[at] == i;
      var atCycle := at;
      if k < |p| - 1 { atCycle := PathStaysInOrder(g, order, p, at, k); }
      var start := PathStaysInOrder(g, order, p[..k + 1], atCycle, 0);
    }
  }

  // ----- longest paths -----

  /** Some path to i has n edges, and none has more. */
  ghost predicate LongestTo(g: Graph, i: Id, n: int) {
    && (exists p :: PathTo(g, p, i) && |p| == n + 1)
    && (forall p :: PathTo(g, p, i) ==> |p| <= n + 1)
  }

  lemma LongestIsUnique(g: Graph, i: Id, m: int, n: int)
    requires LongestTo(g, i, m) && LongestTo(g, i, n)
    ensures m == n
  {
  }

  /** Depth is zero without dependencies and one more than the deepest dependency otherwise. */
  ghost predicate DepthLaw(g: Graph, depth: map<Id, int>, i: Id) {
    && i in g && i in depth && depth[i] >= 0
    && (forall d :: d in g[i] ==> d in depth && depth[d] < depth[i])
    && (depth[i] > 0 ==> exists d :: d in g[i] && d in depth && depth[d] + 1 == depth[i])
  }

  lemma {:induction false} DepthBoundsPaths(g: Graph, depth: map<Id, int>, p: seq<Id>)
    requires forall i :: i in g ==> DepthLaw(g, depth, i)
    requires depth.Keys == g.Keys && Path(g, p)
    ensures |p| <= depth[Last(p)] + 1
  {
    if |p| > 1 {
      DepthBoundsPaths(g, depth, Init(p));
      assert p[|p| - 2] in g[Last(p)];
    }
  }

  lemma DeepestDependency(g: Graph, depth: map<Id, int>, i: Id) returns (d: Id)
    requires Closed(g) && DepthLaw(g, depth, i) && depth[i] != 0
    ensures d in g && d in g[i] && d in depth && depth[d] + 1 == depth[i] && depth[i] > 0
  {
    d :| d in g[i] && d in depth && depth[d] + 1 == depth[i];
  }

  lemma ExtendPath(g: Graph, p: seq<Id>, d: Id, i: Id)
    requires PathTo(g, p, d) && i in g && d in g[i]
    ensures PathTo(g, p + [i], i)
  {
  }

  lemma {:induction false} DepthIsReached(g: Graph, depth: map<Id, int>, i: Id) returns (p: seq<Id>)
    requires Closed(g) && forall j :: j in g ==> DepthLaw(g, depth, j)
    requires depth.Keys == g.Keys && i in g
    ensures PathTo(g, p, i) && |p| == depth[i] + 1
    decreases depth[i]
  {
    hide DepthLaw, Closed;
    if depth[i] == 0 {
      p := [i];
    } else {
      var d := DeepestDependency(g, depth, i);
      var before := DepthIsReached(g, depth, d);
      ExtendPath(g, before, d, i);
      p := before + [i];
    }
  }

  lemma DepthIsLongestPath(g: Graph, depth: map<Id, int>, i: Id)
    requires Closed(g) && forall j :: j in g ==> DepthLaw(g, depth, j)
    requires depth.Keys == g.Keys && i in g
    ensures LongestTo(g, i, depth[i])
  {
    var p := DepthIsReached(g, depth, i);
    forall q | PathTo(g, q, i) ensures |q| <= depth[i] + 1 {
      DepthBoundsPaths(g, depth, q);
    }
  }

  // ----- more edges -----

  ghost predicate Subgraph(g: Graph, h: Graph) {
    g.Keys == h.Keys && forall i :: i in g ==> g[i] <= h[i]
  }

  lemma MoreEdgesLongerPaths(g: Graph, h: Graph, i: Id, m: int, n: int)
    requires Subgraph(g, h) && LongestTo(g, i, m) && LongestTo(h, i, n)
    ensures m <= n
  {
    var p :| PathTo(g, p, i) && |p| == m + 1;
    assert PathTo(h, p, i);
  }

  lemma CycleSurvivesMoreEdges(g: Graph, h: Graph)
    requires Subgraph(g, h) && Cyclic(g)
    ensures Cyclic(h)
  {
    var p :| CyclePath(g, p);
    assert CyclePath(h, p);
  }
}
