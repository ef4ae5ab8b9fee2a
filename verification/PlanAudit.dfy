/**
 * Results about whole audits: listing order, the two dependency graphs, and declared resources
 * (scripts/plan_guard.py).
 */
module PlanAudit {
  import opened Common
  import opened Ordering
  import opened DependencyGraph
  import opened PlanGuard
  import opened PlanPaths
  import opened PlanTopology

  // ----- a report depends on the graph alone -----

  lemma MomentWithinPrefix(g: Graph, o1: seq<Id>, o2: seq<Id>, m: nat, x: Id, a1: nat, a2: nat)
    requires m <= |o1| && m <= |o2| && o1[..m] == o2[..m] && Distinct(o2)
    requires x in g && ReadyAt(g, o1, x, a1) && ReadyAt(g, o2, x, a2) && a1 <= m
    ensures a2 <= a1
  {
    if a2 > 0 {
      var last := o2[a2 - 1];
      assert last in o1[..a1];
      var k :| 0 <= k < a1 && o1[k] == last;
      assert o2[..m][k] == o1[..m][k];
    }
  }

  lemma MomentBound(g: Graph, o: seq<Id>, m: nat, x: Id, a: nat)
    requires m <= |o| && Distinct(o) && x in g && g[x] <= Elements(o[..m]) && ReadyAt(g, o, x, a)
    ensures a <= m
  {
    if a > 0 {
      assert o[a - 1] in o[..m];
    }
  }

  /** Two orders that agree so far agree on when a ready node became ready. */
  lemma SameMoment(g: Graph, o1: seq<Id>, o2: seq<Id>, m: nat, x: Id, a1: nat, a2: nat)
    requires m <= |o1| && m <= |o2| && o1[..m] == o2[..m] && Distinct(o1) && Distinct(o2)
    requires x in g && g[x] <= Elements(o1[..m])
    requires ReadyAt(g, o1, x, a1) && ReadyAt(g, o2, x, a2)
    ensures a1 == a2
  {
    MomentBound(g, o1, m, x, a1);
    MomentBound(g, o2, m, x, a2);
    MomentWithinPrefix(g, o1, o2, m, x, a1, a2);
    MomentWithinPrefix(g, o2, o1, m, x, a2, a1);
  }

  ghost predicate GoodOrder(g: Graph, o: seq<Id>, at: seq<nat>) {
    TopologicalOrder(g, o) && ReadyOrder(g, o, o, at)
  }

  /** Next in the first order is not after next in the second. */
  lemma IndexBeyond(o: seq<Id>, m: nat, y: Id) returns (l: nat)
    requires m <= |o| && y in o && y !in o[..m]
    ensures m <= l < |o| && o[l] == y
  {
    assert o == o[..m] + o[m..];
    assert y in o[m..];
    var k :| 0 <= k < |o[m..]| && o[m..][k] == y;
    l := m + k;
  }

  lemma NextIsFirst(g: Graph, o1: seq<Id>, at1: seq<nat>, m: nat, y: Id) returns (l: nat)
    requires GoodOrder(g, o1, at1) && m < |o1| && y in g && y !in o1[..m] && y != o1[m]
    ensures m < l < |o1| && o1[l] == y && |at1| == |o1| && ReadyBefore(at1[m], o1[m], at1[l], y)
    ensures ReadyAt(g, o1, o1[m], at1[m]) && ReadyAt(g, o1, y, at1[l])
    ensures g[o1[m]] <= Elements(o1[..m])
  {
    hide ReadyAt, ReadyBefore;
    assert y in Elements(o1);
    l := IndexBeyond(o1, m, y);
    assert ReadyAt(g, o1, o1[m], at1[m]);
  }

  lemma NotInPrefix(o: seq<Id>, m: nat)
    requires Distinct(o) && m < |o|
    ensures o[m] !in o[..m]
  {
  }

  lemma GoodOrderIsDistinct(g: Graph, o: seq<Id>, at: seq<nat>, m: nat)
    requires GoodOrder(g, o, at) && m < |o|
    ensures Distinct(o) && o[m] in g && o[m] !in o[..m]
  {
    hide ReadyOrder, DependenciesFirst;
    NotInPrefix(o, m);
    assert o[m] in Elements(o);
  }

  /** After the same prefix the same node is next. */
  lemma NextAgrees(g: Graph, o1: seq<Id>, at1: seq<nat>, o2: seq<Id>, at2: seq<nat>, n: nat)
    requires GoodOrder(g, o1, at1) && GoodOrder(g, o2, at2) && n < |o1| && n < |o2| && o1[..n] == o2[..n]
    ensures o1[n] == o2[n]
  {
    hide GoodOrder, ReadyAt;
    GoodOrderIsDistinct(g, o1, at1, n);
    GoodOrderIsDistinct(g, o2, at2, n);
    var x, y := o1[n], o2[n];
    if x != y {
      var l := NextIsFirst(g, o1, at1, n, y);
      var k := NextIsFirst(g, o2, at2, n, x);
      SameMoment(g, o1, o2, n, x, at1[n], at2[k]);
      SameMoment(g, o1, o2, n, y, at1[l], at2[n]);
      LexTotal(x, y);
      assert false;
    }
  }

  lemma {:induction false} OrdersAgree(g: Graph, o1: seq<Id>, at1: seq<nat>, o2: seq<Id>, at2: seq<nat>, m: nat)
    requires GoodOrder(g, o1, at1) && GoodOrder(g, o2, at2) && m <= |o1| && m <= |o2|
    ensures o1[..m] == o2[..m]
  {
    hide GoodOrder;
    if m > 0 {
      OrdersAgree(g, o1, at1, o2, at2, m - 1);
      NextAgrees(g, o1, at1, o2, at2, m - 1);
      assert o1[..m] == o1[..m - 1] + [o1[m - 1]] && o2[..m] == o2[..m - 1] + [o2[m - 1]];
    }
  }

  lemma OrderIsDetermined(g: Graph, o1: seq<Id>, o2: seq<Id>)
    requires TopologicalOrder(g, o1) && TopologicalOrder(g, o2)
    requires (exists at :: ReadyOrder(g, o1, o1, at)) && (exists at :: ReadyOrder(g, o2, o2, at))
    ensures o1 == o2
  {
    hide DependenciesFirst, ReadyOrder;
    var at1 :| ReadyOrder(g, o1, o1, at1);
    var at2 :| ReadyOrder(g, o2, o2, at2);
    DistinctCardinality(o1);
    DistinctCardinality(o2);
    OrdersAgree(g, o1, at1, o2, at2, |o1|);
    assert o1[..|o1|] == o1 && o2[..|o2|] == o2;
  }

  lemma FirstDeepestIsUnique(g: Graph, order: seq<Id>, depth: map<Id, int>, j: Id, d: Id, e: Id)
    requires j in g && depth.Keys == g.Keys && Elements(order) <= g.Keys && d in g && e in g
    requires FirstDeepest(g, order, depth, j, d) && FirstDeepest(g, order, depth, j, e)
    ensures d == e
  {
    var a :| 0 <= a < |order| && order[a] == d;
    var b :| 0 <= b < |order| && order[b] == e;
  }

  lemma {:induction false} ChainsAgree(g: Graph, order: seq<Id>, depth: map<Id, int>, c1: seq<Id>, c2: seq<Id>)
    requires depth.Keys == g.Keys && Elements(order) <= g.Keys
    requires c1 != [] && |c1| == |c2| && Last(c1) == Last(c2)
    requires forall k :: 0 <= k < |c1| ==> c1[k] in g && c2[k] in g
    requires forall k :: 0 < k < |c1| ==>
             FirstDeepest(g, order, depth, c1[k], c1[k - 1]) && FirstDeepest(g, order, depth, c2[k], c2[k - 1])
    ensures c1 == c2
  {
    if |c1| > 1 {
      FirstDeepestIsUnique(g, order, depth, Last(c1), c1[|c1| - 2], c2[|c1| - 2]);
      ChainsAgree(g, order, depth, Init(c1), Init(c2));
      assert c1 == Init(c1) + [Last(c1)] && c2 == Init(c2) + [Last(c2)];
    } else {
      assert c1 == [Last(c1)] && c2 == [Last(c2)];
    }
  }

  lemma ChainIsDetermined(g: Graph, order: seq<Id>, depth: map<Id, int>, c1: seq<Id>, m1: int, c2: seq<Id>, m2: int)
    requires TopologicalOrder(g, order) && depth.Keys == g.Keys
    requires ChainLaw(g, order, depth, c1, m1) && ChainLaw(g, order, depth, c2, m2)
    ensures c1 == c2 && m1 == m2
  {
    hide FirstDeepest, DependenciesFirst;
    if g != map[] {
      var x, y := Last(c1), Last(c2);
      assert x in g && y in g && x in Elements(order) && y in Elements(order);
      var a :| 0 <= a < |order| && order[a] == x;
      var b :| 0 <= b < |order| && order[b] == y;
      assert m1 == m2;
      assert a == b;
      ChainsAgree(g, order, depth, c1, c2);
    }
  }

  /** One graph has one report: order, depths and chain leave nothing to chance. */
  lemma ReportIsDetermined(g: Graph, r1: Report, r2: Report)
    requires ReportLaw(g, r1) && ReportLaw(g, r2)
    ensures r1 == r2
  {
    hide ChainLaw, TopologicalOrder, ReadyOrder, LongestTo;
    OrderIsDetermined(g, r1.order, r2.order);
    forall i | i in g ensures r1.depths[i] == r2.depths[i] {
      LongestIsUnique(g, i, r1.depths[i], r2.depths[i]);
    }
    assert r1.depths == r2.depths;
    ChainIsDetermined(g, r1.order, r1.depths, r1.chain, r1.maxDepth, r2.chain, r2.maxDepth);
  }

  lemma SameGraphWhenRelisted(a: seq<Task>, b: seq<Task>, fields: seq<string>)
    requires multiset(a) == multiset(b) && Distinct(Ids(a)) && Distinct(Ids(b))
    ensures PlanGraph(a, fields) == PlanGraph(b, fields)
  {
    hide Deps, PlanGraph;
    SameElements(a, b);
    var g, h := PlanGraph(a, fields), PlanGraph(b, fields);
    forall k | 0 <= k < |b| ensures b[k].id in g && g[b[k].id] == Deps(b[k], fields) {
      assert b[k] in a;
    }
    forall i ensures i in g.Keys <==> i in Elements(Ids(b)) {
      if i in g.Keys {
        var k :| 0 <= k < |Ids(a)| && Ids(a)[k] == i;
        assert a[k] in b;
        var l :| 0 <= l < |b| && b[l] == a[k];
        assert Ids(b)[l] == i;
      }
      if i in Elements(Ids(b)) {
        var l :| 0 <= l < |Ids(b)| && Ids(b)[l] == i;
        assert b[l].id in g;
      }
    }
    PlanGraphIsUnique(b, fields, g, h);
  }

  /** Listing the same tasks in another order gives the same verdict: the same report or the same named ids. */
  lemma VerdictIgnoresListing(a: seq<Task>, b: seq<Task>, fields: seq<string>, r: Result<Report, PlanError>,
                              s: Result<Report, PlanError>)
    requires multiset(a) == multiset(b) && WellFormed(a, fields) && WellFormed(b, fields)
    requires TopologyOutcome(PlanGraph(a, fields), r) && TopologyOutcome(PlanGraph(b, fields), s)
    ensures r == s
  {
    hide ReportLaw, OnOrBelowCycle, Cyclic, WellFormed, SortedBy;
    assert Distinct(Ids(a)) && Distinct(Ids(b)) by { WellFormedIds(a, fields); WellFormedIds(b, fields); }
    SameGraphWhenRelisted(a, b, fields);
    var g := PlanGraph(a, fields);
    if r.Ok? {
      ReportIsDetermined(g, r.value, s.value);
    } else {
      SameIds(r.error.ids, s.error.ids);
    }
  }

  lemma WellFormedIds(a: seq<Task>, fields: seq<string>)
    requires WellFormed(a, fields)
    ensures Distinct(Ids(a))
  {
  }

  lemma SameIds(a: seq<Id>, b: seq<Id>)
    requires Distinct(a) && Distinct(b) && SortedBy(LexLe, a) && SortedBy(LexLe, b) && forall i :: i in a <==> i in b
    ensures a == b
  {
    DistinctSameMultiset(a, b);
    LexIsTotalOrder();
    SortedUnique(LexLe, a, b);
  }

  // ----- the development graph and the acceptance graph -----

  const MUST := ["must"]
  const MUST_AND_INTEGRATION := ["must", "integration"]

  ghost predicate Passes(tasks: seq<Task>, fields: seq<string>) {
    WellFormed(tasks, fields) && !Cyclic(PlanGraph(tasks, fields))
  }

  /** The error is the first defect of the plan, or else names what its cycles hold up. */
  ghost predicate PlanFault(tasks: seq<Task>, fields: seq<string>, e: PlanError) {
    if !WellFormed(tasks, fields) then FirstDefect(tasks, fields, e)
    else TopologyOutcome(PlanGraph(tasks, fields), Err(e))
  }

  /** Both calls of `audit`; the first error ends the audit. */
  method AuditGraphs(tasks: seq<Task>) returns (r: Result<(Report, Report), PlanError>)
    ensures r.Ok? ==> WellFormed(tasks, MUST_AND_INTEGRATION)
    ensures r.Ok? ==> ReportLaw(PlanGraph(tasks, MUST), r.value.0)
    ensures r.Ok? ==> ReportLaw(PlanGraph(tasks, MUST_AND_INTEGRATION), r.value.1)
    ensures r.Ok? ==> forall i :: i in r.value.0.depths ==>
            i in r.value.1.depths && r.value.0.depths[i] <= r.value.1.depths[i]
    ensures r.Ok? <==> WellFormed(tasks, MUST_AND_INTEGRATION) && !Cyclic(PlanGraph(tasks, MUST_AND_INTEGRATION))
    ensures r.Err? ==>
              if Passes(tasks, MUST) then PlanFault(tasks, MUST_AND_INTEGRATION, r.error)
              else PlanFault(tasks, MUST, r.error)
  {
    hide ReportLaw, Cyclic, WellFormed, FirstDefect, OnOrBelowCycle;
    var hard := Topology(tasks, MUST);
    if hard.Err? {
      if WellFormed(tasks, MUST_AND_INTEGRATION) { MustIsSubgraph(tasks); MustCycleIsCycle(tasks); }
      return Err(hard.error);
    }
    var combined := Topology(tasks, MUST_AND_INTEGRATION);
    if combined.Err? { return Err(combined.error); }
    MustIsSubgraph(tasks);
    DepthsGrow(PlanGraph(tasks, MUST), PlanGraph(tasks, MUST_AND_INTEGRATION), hard.value, combined.value);
    return Ok((hard.value, combined.value));
  }

  lemma MustIsSubgraph(tasks: seq<Task>)
    requires WellFormed(tasks, MUST_AND_INTEGRATION)
    ensures WellFormed(tasks, MUST) && Distinct(Ids(tasks))
    ensures Subgraph(PlanGraph(tasks, MUST), PlanGraph(tasks, MUST_AND_INTEGRATION))
  {
    var g, h := PlanGraph(tasks, MUST), PlanGraph(tasks, MUST_AND_INTEGRATION);
    var known := Elements(Ids(tasks));
    forall k | 0 <= k < |tasks|
      ensures Deps(tasks[k], MUST) <= Deps(tasks[k], MUST_AND_INTEGRATION) && CleanTask(tasks[k], MUST, known)
    {
      assert CleanTask(tasks[k], MUST_AND_INTEGRATION, known);
      assert MUST_AND_INTEGRATION[0] == "must" && MUST_AND_INTEGRATION[1] == "integration";
      forall f | f in MUST ensures f in MUST_AND_INTEGRATION { assert f == "must"; }
    }
    forall i | i in g ensures g[i] <= h[i] {
      var k :| 0 <= k < |Ids(tasks)| && Ids(tasks)[k] == i;
      assert tasks[k].id == i;
    }
  }

  lemma MustCycleIsCycle(tasks: seq<Task>)
    requires Distinct(Ids(tasks)) && Subgraph(PlanGraph(tasks, MUST), PlanGraph(tasks, MUST_AND_INTEGRATION))
    ensures Cyclic(PlanGraph(tasks, MUST)) ==> Cyclic(PlanGraph(tasks, MUST_AND_INTEGRATION))
  {
    if Cyclic(PlanGraph(tasks, MUST)) {
      CycleSurvivesMoreEdges(PlanGraph(tasks, MUST), PlanGraph(tasks, MUST_AND_INTEGRATION));
    }
  }

  /** No task is shallower once the integration dependencies count as well. */
  lemma DepthsGrow(g: Graph, h: Graph, hard: Report, combined: Report)
    requires Subgraph(g, h) && ReportLaw(g, hard) && ReportLaw(h, combined)
    ensures forall i :: i in hard.depths ==> i in combined.depths && hard.depths[i] <= combined.depths[i]
  {
    hide LongestTo, ChainLaw, TopologicalOrder, ReadyOrder;
    forall i | i in g ensures hard.depths[i] <= combined.depths[i] {
      MoreEdgesLongerPaths(g, h, i, hard.depths[i], combined.depths[i]);
    }
  }

  // ----- declared resources -----

  /** One message of `conflicts`: the two task positions with what they share. */
  datatype Conflict =
    | SharedLocks(first: nat, second: nat, locks: set<string>)
    | SharedPaths(first: nat, second: nat, overlaps: seq<(string, string)>)

  function CommonLocks(a: Task, b: Task): set<string> {
    set l | l in a.requiredLocks && l in b.requiredLocks
  }

  /** The pairs of overlapping patterns, in the order of the nested comprehension. */
  function OverlapsOf(p: string, qs: seq<string>): (r: seq<(string, string)>)
    ensures forall x, q :: (x, q) in r <==> x == p && q in qs && PathOverlap(p, q)
  {
    if qs == [] then []
    else
      assert forall q :: q in qs <==> q in Init(qs) || q == Last(qs);
      OverlapsOf(p, Init(qs)) + (if PathOverlap(p, Last(qs)) then [(p, Last(qs))] else [])
  }

  function Overlaps(ps: seq<string>, qs: seq<string>): (r: seq<(string, string)>)
    ensures forall p, q :: (p, q) in r <==> p in ps && q in qs && PathOverlap(p, q)
  {
    if ps == [] then []
    else
      assert forall p :: p in ps <==> p in Init(ps) || p == Last(ps);
      Overlaps(Init(ps), qs) + OverlapsOf(Last(ps), qs)
  }

  /** What `conflicts` reports for one pair. */
  function PairConflicts(tasks: seq<Task>, n: nat, m: nat): seq<Conflict>
    requires n < |tasks| && m < |tasks|
  {
    var a, b := tasks[n], tasks[m];
    (if CommonLocks(a, b) != {} then [SharedLocks(n, m, CommonLocks(a, b))] else []) +
    (if Overlaps(a.ownedPaths, b.ownedPaths) != [] then [SharedPaths(n, m, Overlaps(a.ownedPaths, b.ownedPaths))]
     else [])
  }

  /** Messages of task n against the tasks after it, up to m. */
  function RowConflicts(tasks: seq<Task>, n: nat, m: nat): seq<Conflict>
    requires n < m <= |tasks|
  {
    if m == n + 1 then [] else RowConflicts(tasks, n, m - 1) + PairConflicts(tasks, n, m - 1)
  }

  function ConflictsUpTo(tasks: seq<Task>, n: nat): seq<Conflict>
    requires n <= |tasks|
  {
    if n == 0 then [] else ConflictsUpTo(tasks, n - 1) + RowConflicts(tasks, n - 1, |tasks|)
  }

  method Conflicts(tasks: seq<Task>) returns (out: seq<Conflict>)
    ensures out == ConflictsUpTo(tasks, |tasks|)
  {
    hide *;
    out := [];
    ConflictsFrom(tasks, 0, 1);
    for n := 0 to |tasks|
      invariant out == ConflictsUpTo(tasks, n)
    {
      ghost var before := out;
      ConflictsFrom(tasks, n, n + 1);
      for m := n + 1 to |tasks|
        invariant out == before + RowConflicts(tasks, n, m)
      {
        ConflictsFrom(tasks, n, m);
        ghost var found := out;
        var common := CommonLocks(tasks[n], tasks[m]);
        if common != {} { out := out + [SharedLocks(n, m, common)]; }
        var overlaps := Overlaps(tasks[n].ownedPaths, tasks[m].ownedPaths);
        if overlaps != [] { out := out + [SharedPaths(n, m, overlaps)]; }
        assert out == found + PairConflicts(tasks, n, m);
      }
    }
  }

  /** One turn of each loop. */
  lemma ConflictsFrom(tasks: seq<Task>, n: nat, m: nat)
    ensures ConflictsUpTo(tasks, 0) == []
    ensures n < |tasks| ==> RowConflicts(tasks, n, n + 1) == []
    ensures n < |tasks| ==> ConflictsUpTo(tasks, n + 1) == ConflictsUpTo(tasks, n) + RowConflicts(tasks, n, |tasks|)
    ensures n < m < |tasks| ==>
              && RowConflicts(tasks, n, m + 1) == RowConflicts(tasks, n, m) + PairConflicts(tasks, n, m)
              && (var common := CommonLocks(tasks[n], tasks[m]);
                  var overlaps := Overlaps(tasks[n].ownedPaths, tasks[m].ownedPaths);
                  PairConflicts(tasks, n, m) == (if common != {} then [SharedLocks(n, m, common)] else [])
                                                + (if overlaps != [] then [SharedPaths(n, m, overlaps)] else []))
  {
    hide CommonLocks, Overlaps;
  }

  lemma {:induction false} RowMembers(tasks: seq<Task>, n: nat, m: nat, c: Conflict)
    requires n < m <= |tasks|
    ensures c in RowConflicts(tasks, n, m) <==> exists k :: n < k < m && c in PairConflicts(tasks, n, k)
  {
    hide PairConflicts;
    if m > n + 1 {
      RowMembers(tasks, n, m - 1, c);
      assert c in RowConflicts(tasks, n, m) <==>
             c in RowConflicts(tasks, n, m - 1) || c in PairConflicts(tasks, n, m - 1);
    }
  }

  /** Every pair is reported, and nothing else is. */
  lemma {:induction false} ConflictMembers(tasks: seq<Task>, n: nat, c: Conflict)
    requires n <= |tasks|
    ensures c in ConflictsUpTo(tasks, n) <==>
            exists i, k :: 0 <= i < n && i < k < |tasks| && c in PairConflicts(tasks, i, k)
  {
    hide PairConflicts, RowConflicts;
    if n > 0 {
      ConflictMembers(tasks, n - 1, c);
      RowMembers(tasks, n - 1, |tasks|, c);
      assert c in ConflictsUpTo(tasks, n) <==>
             c in ConflictsUpTo(tasks, n - 1) || c in RowConflicts(tasks, n - 1, |tasks|);
    }
  }

  ghost predicate DisjointTasks(a: Task, b: Task) {
    && (forall l :: !(l in a.requiredLocks && l in b.requiredLocks))
    && (forall p, q :: p in a.ownedPaths && q in b.ownedPaths ==> !PathOverlap(p, q))
  }

  lemma PairIsClearIffDisjoint(tasks: seq<Task>, n: nat, m: nat)
    requires n < |tasks| && m < |tasks|
    ensures PairConflicts(tasks, n, m) == [] <==> DisjointTasks(tasks[n], tasks[m])
  {
    hide PathOverlap;
    var a, b := tasks[n], tasks[m];
    var found := Overlaps(a.ownedPaths, b.ownedPaths);
    if found != [] {
      assert (found[0].0, found[0].1) in found;
    }
    if !DisjointTasks(a, b) {
      if l :| l in a.requiredLocks && l in b.requiredLocks {
        assert l in CommonLocks(a, b);
      } else {
        var p, q :| p in a.ownedPaths && q in b.ownedPaths && PathOverlap(p, q);
        assert (p, q) in found;
      }
    }
    if CommonLocks(a, b) != {} {
      var l :| l in CommonLocks(a, b);
    }
  }

  /** The list is empty exactly when the tasks are pairwise disjoint in locks and patterns. */
  lemma NoConflictsIffDisjoint(tasks: seq<Task>)
    ensures ConflictsUpTo(tasks, |tasks|) == [] <==> forall n, m :: 0 <= n < m < |tasks| ==>
            DisjointTasks(tasks[n], tasks[m])
  {
    hide DisjointTasks, PairConflicts, ConflictsUpTo;
    var out := ConflictsUpTo(tasks, |tasks|);
    if out == [] {
      forall n, m | 0 <= n < m < |tasks| ensures DisjointTasks(tasks[n], tasks[m]) {
        PairIsClearIffDisjoint(tasks, n, m);
        var pair := PairConflicts(tasks, n, m);
        if pair != [] {
          assert pair[0] in PairConflicts(tasks, n, m);
          ConflictMembers(tasks, |tasks|, pair[0]);
        }
      }
    } else {
      ConflictMembers(tasks, |tasks|, out[0]);
      assert out[0] in out;
      var n, m :| 0 <= n < |tasks| && n < m < |tasks| && out[0] in PairConflicts(tasks, n, m);
      PairIsClearIffDisjoint(tasks, n, m);
    }
  }

  /** With no conflicts no lock is needed by two tasks, and no path is shared by plain patterns of two tasks. */
  lemma NoConflictsMeansNoSharedWrite(matches: (string, Path) -> bool, tasks: seq<Task>, n: nat, m: nat)
    requires AnchoredGlobs(matches) && ConflictsUpTo(tasks, |tasks|) == [] && n < m < |tasks|
    ensures forall l :: !(l in tasks[n].requiredLocks && l in tasks[m].requiredLocks)
    ensures forall path, p, q :: p in tasks[n].ownedPaths && q in tasks[m].ownedPaths && Plain(p) && Plain(q) ==>
              !(Covers(matches, p, path) && Covers(matches, q, path))
  {
    hide PathOverlap, Covers, AnchoredGlobs, ConflictsUpTo, Plain;
    NoConflictsIffDisjoint(tasks);
    forall path, p, q | p in tasks[n].ownedPaths && q in tasks[m].ownedPaths && Plain(p) && Plain(q)
                        && Covers(matches, p, path) && Covers(matches, q, path)
      ensures false
    {
      OverlapIsSound(matches, p, q, path);
    }
  }
}
