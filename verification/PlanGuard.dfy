/** The plan DAG auditor (scripts/plan_guard.py, `topology`). */
module PlanGuard {
  import opened Common
  import opened Ordering
  import opened DependencyGraph

  datatype Task = Task(id: Id, refs: map<string, seq<Id>>, requiredLocks: seq<string>, ownedPaths: seq<string>)

  datatype PlanError =
    | DuplicateTask
    | DuplicateDependency(task: Id, field: string)
    | MissingDependency(task: Id, dependency: Id)
    | SelfDependency(task: Id)
    | CycleError(ids: seq<Id>)

  datatype Report = Report(nodeCount: nat, edgeCount: nat, maxDepth: int, chain: seq<Id>, order: seq<Id>,
                           depths: map<Id, int>)

  function Ids(tasks: seq<Task>): (r: seq<Id>)
    ensures |r| == |tasks| && forall k :: 0 <= k < |tasks| ==> r[k] == tasks[k].id
  {
    seq(|tasks|, k requires 0 <= k < |tasks| => tasks[k].id)
  }

  /** A missing field reads as the empty list. */
  function Refs(t: Task, field: string): seq<Id> {
    if field in t.refs then t.refs[field] else []
  }

  function Deps(t: Task, fields: seq<string>): set<Id> {
    set f, d | f in fields && d in Refs(t, f) :: d
  }

  // ----- the dependency graph of a plan and its first defect -----

  ghost predicate CleanFields(t: Task, fields: seq<string>) {
    forall f :: f in fields ==> Distinct(Refs(t, f))
  }

  ghost predicate CleanTask(t: Task, fields: seq<string>, known: set<Id>) {
    CleanFields(t, fields) && Deps(t, fields) <= known && t.id !in Deps(t, fields)
  }

  /** What the checks before the graph search accept. */
  ghost predicate WellFormed(tasks: seq<Task>, fields: seq<string>) {
    Distinct(Ids(tasks)) && forall k :: 0 <= k < |tasks| ==> CleanTask(tasks[k], fields, Elements(Ids(tasks)))
  }

  ghost predicate TaskDefect(t: Task, fields: seq<string>, known: set<Id>, e: PlanError) {
    match e
    case DuplicateDependency(i, f) =>
      i == t.id
      && exists n :: 0 <= n < |fields| && fields[n] == f && !Distinct(Refs(t, f)) && CleanFields(t, fields[..n])
    case MissingDependency(i, d) => i == t.id && CleanFields(t, fields) && d in Deps(t, fields) && d !in known
    case SelfDependency(i) => i == t.id && CleanFields(t, fields) && t.id in Deps(t, fields)
    case _ => false
  }

  /** The error is a defect of the first task that has one. */
  ghost predicate FirstDefect(tasks: seq<Task>, fields: seq<string>, e: PlanError) {
    if !Distinct(Ids(tasks)) then e == DuplicateTask
    else exists k :: 0 <= k < |tasks| && TaskDefect(tasks[k], fields, Elements(Ids(tasks)), e)
                     && forall m :: 0 <= m < k ==> CleanTask(tasks[m], fields, Elements(Ids(tasks)))
  }

  /** Node and dependency sets of a plan; read it only for distinct ids. */
  ghost predicate IsPlanGraph(tasks: seq<Task>, fields: seq<string>, g: Graph) {
    && g.Keys == Elements(Ids(tasks))
    && forall k :: 0 <= k < |tasks| ==> tasks[k].id in g && g[tasks[k].id] == Deps(tasks[k], fields)
  }

  ghost function PlanGraph(tasks: seq<Task>, fields: seq<string>): (g: Graph)
    requires Distinct(Ids(tasks))
    ensures IsPlanGraph(tasks, fields, g)
  {
    if tasks == [] then map[]
    else
      assert Ids(tasks) == Ids(Init(tasks)) + [Last(tasks).id];
      PlanGraph(Init(tasks), fields)[Last(tasks).id := Deps(Last(tasks), fields)]
  }

  lemma PlanGraphIsUnique(tasks: seq<Task>, fields: seq<string>, g: Graph, h: Graph)
    requires IsPlanGraph(tasks, fields, g) && IsPlanGraph(tasks, fields, h)
    ensures g == h
  {
    forall i | i in g ensures g[i] == h[i] {
      var k :| 0 <= k < |Ids(tasks)| && Ids(tasks)[k] == i;
      assert tasks[k].id == i;
    }
  }

  // ----- reading the edges -----

  datatype EdgeTables = EdgeTables(indegree: map<Id, int>, children: map<Id, seq<Id>>)

  /** `children` is a defaultdict of lists. */
  function Kids(children: map<Id, seq<Id>>, d: Id): seq<Id> {
    if d in children then children[d] else []
  }

  ghost predicate Tabulates(g: Graph, t: EdgeTables) {
    && t.indegree.Keys == g.Keys
    && (forall x :: x in g ==> t.indegree[x] == |g[x]|)
    && (forall d :: Distinct(Kids(t.children, d)))
    && (forall d, x :: x in Kids(t.children, d) <==> x in g && d in g[x])
  }

  lemma AddEdge(g: Graph, t: EdgeTables, x: Id, d: Id)
    requires Tabulates(g, t) && x in g && d !in g[x]
    ensures Tabulates(g[x := g[x] + {d}],
                      EdgeTables(t.indegree[x := t.indegree[x] + 1], t.children[d := Kids(t.children, d) + [x]]))
  {
    var h := g[x := g[x] + {d}];
    var children := t.children[d := Kids(t.children, d) + [x]];
    forall e ensures Distinct(Kids(children, e)) {
      assert x !in Kids(t.children, d);
      assert Distinct(Kids(t.children, e));
    }
    forall e, y ensures y in Kids(children, e) <==> y in h && e in h[y] {
      assert y in Kids(t.children, e) <==> y in g && e in g[y];
    }
  }

  lemma InTables(g: Graph, t: EdgeTables, x: Id)
    requires Tabulates(g, t) && x in g
    ensures x in t.indegree
  {
  }

  method CollectDeps(t: Task, fields: seq<string>) returns (r: Result<set<Id>, PlanError>)
    ensures r.Ok? ==> CleanFields(t, fields) && r.value == Deps(t, fields)
    ensures r.Err? ==> TaskDefect(t, fields, {}, r.error) && r.error.DuplicateDependency?
  {
    var deps: set<Id> := {};
    for n := 0 to |fields|
      invariant CleanFields(t, fields[..n])
      invariant deps == Deps(t, fields[..n])
    {
      var x := Refs(t, fields[n]);
      if !Distinct(x) {
        return Err(DuplicateDependency(t.id, fields[n]));
      }
      deps := deps + set d | d in x;
      assert fields[..n + 1] == fields[..n] + [fields[n]];
    }
    assert fields[..|fields|] == fields;
    return Ok(deps);
  }

  /** Python visits a set in no fixed order; so does this loop. */
  method ReadTask(t: Task, deps: set<Id>, known: set<Id>, tables: EdgeTables, ghost g: Graph)
    returns (r: Result<EdgeTables, PlanError>)
    requires Tabulates(g, tables) && g.Keys == known && t.id in g && g[t.id] == {}
    ensures r.Ok? ==> deps <= known && t.id !in deps && Tabulates(g[t.id := deps], r.value)
    ensures r.Err? ==> (exists d :: d in deps && d !in known && r.error == MissingDependency(t.id, d))
                       || (t.id in deps && r.error == SelfDependency(t.id))
  {
    hide Tabulates, Kids;
    var now := tables;
    var rest := deps;
    ghost var h := g;
    assert deps - rest == {} && g[t.id := {}] == g;
    while rest != {}
      invariant rest <= deps
      invariant h == g[t.id := deps - rest]
      invariant Tabulates(h, now)
      invariant deps - rest <= known && t.id !in deps - rest
      decreases rest
    {
      var d :| d in rest;
      if d !in known { return Err(MissingDependency(t.id, d)); }
      if d == t.id { return Err(SelfDependency(d)); }
      InTables(h, now, t.id);
      AddEdge(h, now, t.id, d);
      now := EdgeTables(now.indegree[t.id := now.indegree[t.id] + 1],
                        now.children[d := Kids(now.children, d) + [t.id]]);
      rest := rest - {d};
      assert deps - rest == h[t.id] + {d};
      h := h[t.id := deps - rest];
    }
    assert deps - rest == deps;
    return Ok(now);
  }

  /** The graph of the first n tasks, with the others still bare. */
  ghost predicate GraphUpTo(tasks: seq<Task>, fields: seq<string>, n: nat, g: Graph) {
    g.Keys == Elements(Ids(tasks))
    && forall m :: 0 <= m < |tasks| ==>
    tasks[m].id in g && g[tasks[m].id] == if m < n then Deps(tasks[m], fields) else {}
  }

  lemma GraphGrows(tasks: seq<Task>, fields: seq<string>, n: nat, g: Graph)
    requires Distinct(Ids(tasks)) && n < |tasks| && GraphUpTo(tasks, fields, n, g)
    ensures GraphUpTo(tasks, fields, n + 1, g[tasks[n].id := Deps(tasks[n], fields)])
  {
    forall m | 0 <= m < |tasks| && m != n ensures tasks[m].id != tasks[n].id {
      assert Ids(tasks)[m] != Ids(tasks)[n];
    }
  }

  ghost function BareGraph(tasks: seq<Task>, fields: seq<string>): (g: Graph)
    ensures GraphUpTo(tasks, fields, 0, g)
    ensures g.Keys == Elements(Ids(tasks)) && forall i :: i in g ==> g[i] == {}
  {
    assert forall m :: 0 <= m < |tasks| ==> Ids(tasks)[m] == tasks[m].id;
    map i | i in Elements(Ids(tasks)) :: {}
  }

  lemma BareNode(tasks: seq<Task>, fields: seq<string>, n: nat, g: Graph)
    requires n < |tasks| && GraphUpTo(tasks, fields, n, g)
    ensures g.Keys == Elements(Ids(tasks)) && tasks[n].id in g && g[tasks[n].id] == {}
  {
  }

  lemma BareTables(g: Graph, t: EdgeTables)
    requires t == EdgeTables(map i | i in g.Keys :: 0, map[]) && forall i :: i in g ==> g[i] == {}
    ensures Tabulates(g, t)
  {
  }

  lemma AllRead(tasks: seq<Task>, fields: seq<string>, g: Graph)
    requires Distinct(Ids(tasks)) && GraphUpTo(tasks, fields, |tasks|, g)
    ensures g == PlanGraph(tasks, fields)
  {
    PlanGraphIsUnique(tasks, fields, g, PlanGraph(tasks, fields));
  }

  lemma DefectIsReported(tasks: seq<Task>, fields: seq<string>, k: nat, e: PlanError)
    requires Distinct(Ids(tasks)) && k < |tasks|
    requires TaskDefect(tasks[k], fields, Elements(Ids(tasks)), e)
    requires CleanUpTo(tasks, fields, k)
    ensures !WellFormed(tasks, fields) && FirstDefect(tasks, fields, e)
  {
    assert !CleanTask(tasks[k], fields, Elements(Ids(tasks)));
  }

  method ReadNode(t: Task, fields: seq<string>, known: set<Id>, tables: EdgeTables, ghost g: Graph)
    returns (r: Result<EdgeTables, PlanError>)
    requires Tabulates(g, tables) && g.Keys == known && t.id in g && g[t.id] == {}
    ensures r.Ok? ==> CleanTask(t, fields, known) && Tabulates(g[t.id := Deps(t, fields)], r.value)
    ensures r.Err? ==> TaskDefect(t, fields, known, r.error)
  {
    var deps := CollectDeps(t, fields);
    if deps.Err? { return Err(deps.error); }
    r := ReadTask(t, deps.value, known, tables, g);
  }

  ghost predicate CleanUpTo(tasks: seq<Task>, fields: seq<string>, n: nat) {
    n <= |tasks| && forall m :: 0 <= m < n ==> CleanTask(tasks[m], fields, Elements(Ids(tasks)))
  }

  lemma NoneRead(tasks: seq<Task>, fields: seq<string>)
    ensures CleanUpTo(tasks, fields, 0)
  {
  }

  lemma CleanOneMore(tasks: seq<Task>, fields: seq<string>, n: nat)
    requires CleanUpTo(tasks, fields, n) && n < |tasks| && CleanTask(tasks[n], fields, Elements(Ids(tasks)))
    ensures CleanUpTo(tasks, fields, n + 1)
  {
  }

  method ReadAll(tasks: seq<Task>, fields: seq<string>, known: set<Id>) returns (r: Result<EdgeTables, PlanError>)
    requires Distinct(Ids(tasks)) && known == Elements(Ids(tasks))
    ensures r.Ok? ==> CleanUpTo(tasks, fields, |tasks|) && Tabulates(PlanGraph(tasks, fields), r.value)
    ensures r.Err? ==> !WellFormed(tasks, fields) && FirstDefect(tasks, fields, r.error)
  {
    hide *;
    var tables := EdgeTables(map i | i in known :: 0, map[]);
    ghost var g := BareGraph(tasks, fields);
    BareTables(g, tables);
    NoneRead(tasks, fields);
    for n := 0 to |tasks|
      invariant CleanUpTo(tasks, fields, n)
      invariant Tabulates(g, tables) && GraphUpTo(tasks, fields, n, g)
    {
      BareNode(tasks, fields, n, g);
      var next := ReadNode(tasks[n], fields, known, tables, g);
      if next.Err? {
        DefectIsReported(tasks, fields, n, next.error);
        return next;
      }
      GraphGrows(tasks, fields, n, g);
      CleanOneMore(tasks, fields, n);
      tables, g := next.value, g[tasks[n].id := Deps(tasks[n], fields)];
    }
    AllRead(tasks, fields, g);
    return Ok(tables);
  }

  method ReadEdges(tasks: seq<Task>, fields: seq<string>) returns (r: Result<EdgeTables, PlanError>)
    ensures r.Ok? ==> WellFormed(tasks, fields) && Tabulates(PlanGraph(tasks, fields), r.value)
    ensures r.Err? ==> !WellFormed(tasks, fields) && FirstDefect(tasks, fields, r.error)
  {
    var ids := Ids(tasks);
    if !Distinct(ids) { return Err(DuplicateTask); }
    r := ReadAll(tasks, fields, set i | i in ids);
  }
}
