/**
 * The plan audit in the terms of a plan as it is written: the dependency fields, the well-formed plans and the first
 * defect of the others, and the conflict messages with their contents and order.
 */
module PlanLaws {
  import opened Common
  import opened DependencyGraph
  import opened PlanGuard
  import opened PlanTopology
  import opened PlanAudit
  import opened PlanPaths

  // ----- dependency fields -----

  /** The task lists d under this field. */
  ghost predicate Lists(t: Task, field: string, d: Id) {
    field in t.refs && exists k :: 0 <= k < |t.refs[field]| && t.refs[field][k] == d
  }

  /** Task t waits for d: under "must", and in the second graph under "integration" as well. */
  ghost predicate Needs(t: Task, integration: bool, d: Id) {
    Lists(t, "must", d) || (integration && Lists(t, "integration", d))
  }

  function Fields(integration: bool): seq<string> {
    if integration then MUST_AND_INTEGRATION else MUST
  }

  lemma DepsLaw(t: Task, integration: bool, d: Id)
    ensures d in Deps(t, Fields(integration)) <==> Needs(t, integration, d)
  {
    var fields := Fields(integration);
    assert "must" in fields by { assert fields[0] == "must"; }
    if integration { assert fields[1] == "integration"; }
    if d in Deps(t, fields) {
      var f :| f in fields && d in Refs(t, f);
      assert Lists(t, f, d);
    }
    if Lists(t, "must", d) { assert d in Refs(t, "must"); }
    if integration && Lists(t, "integration", d) { assert d in Refs(t, "integration"); }
  }

  ghost predicate IsTask(tasks: seq<Task>, id: Id) {
    exists k :: 0 <= k < |tasks| && tasks[k].id == id
  }

  lemma IsTaskLaw(tasks: seq<Task>, id: Id)
    ensures id in Elements(Ids(tasks)) <==> IsTask(tasks, id)
  {
    if IsTask(tasks, id) {
      var k :| 0 <= k < |tasks| && tasks[k].id == id;
      assert Ids(tasks)[k] == id;
    }
  }

  /** The nodes and the edges of the two graphs. */
  lemma GraphLaw(tasks: seq<Task>, integration: bool, id: Id, k: nat, d: Id)
    requires Distinct(Ids(tasks)) && k < |tasks|
    ensures id in PlanGraph(tasks, Fields(integration)) <==> IsTask(tasks, id)
    ensures var g := PlanGraph(tasks, Fields(integration));
            tasks[k].id in g && (d in g[tasks[k].id] <==> Needs(tasks[k], integration, d))
  {
    hide Needs, Fields, Deps, IsTask, Ids, Distinct, PlanGraph;
    IsTaskLaw(tasks, id);
    DepsLaw(tasks[k], integration, d);
    assert IsPlanGraph(tasks, Fields(integration), PlanGraph(tasks, Fields(integration)));
  }

  // ----- well-formed plans -----

  ghost predicate Repeats(t: Task, field: string) {
    field in t.refs && exists i, j :: 0 <= i < j < |t.refs[field]| && t.refs[field][i] == t.refs[field][j]
  }

  /** Nothing is listed twice, everything listed is a task, and no task waits for itself. */
  ghost predicate SoundTask(tasks: seq<Task>, t: Task, integration: bool) {
    && !Repeats(t, "must") && (integration ==> !Repeats(t, "integration"))
    && forall d :: Needs(t, integration, d) ==> IsTask(tasks, d) && d != t.id
  }

  ghost predicate SoundPlan(tasks: seq<Task>, integration: bool) {
    && (forall i, j :: 0 <= i < j < |tasks| ==> tasks[i].id != tasks[j].id)
    && forall k :: 0 <= k < |tasks| ==> SoundTask(tasks, tasks[k], integration)
  }

  lemma RepeatsLaw(t: Task, field: string)
    ensures Distinct(Refs(t, field)) <==> !Repeats(t, field)
  {
  }

  lemma CleanFieldsLaw(t: Task, integration: bool)
    ensures CleanFields(t, Fields(integration)) <==>
              !Repeats(t, "must") && (integration ==> !Repeats(t, "integration"))
  {
    hide Repeats, Refs;
    RepeatsLaw(t, "must");
    RepeatsLaw(t, "integration");
    var fields := Fields(integration);
    assert fields[0] == "must";
    if integration { assert fields[1] == "integration"; }
  }

  lemma CleanTaskLaw(tasks: seq<Task>, t: Task, integration: bool)
    ensures CleanTask(t, Fields(integration), Elements(Ids(tasks))) <==> SoundTask(tasks, t, integration)
  {
    hide Needs, Fields, Deps, IsTask, Repeats, CleanFields;
    CleanFieldsLaw(t, integration);
    var deps := Deps(t, Fields(integration));
    forall d ensures d in deps <==> Needs(t, integration, d) { DepsLaw(t, integration, d); }
    forall d ensures d in Elements(Ids(tasks)) <==> IsTask(tasks, d) { IsTaskLaw(tasks, d); }
  }

  lemma WellFormedLaw(tasks: seq<Task>, integration: bool)
    ensures WellFormed(tasks, Fields(integration)) <==> SoundPlan(tasks, integration)
  {
    hide SoundTask, CleanTask, Fields;
    forall k | 0 <= k < |tasks|
      ensures CleanTask(tasks[k], Fields(integration), Elements(Ids(tasks))) <==>
                SoundTask(tasks, tasks[k], integration)
    {
      CleanTaskLaw(tasks, tasks[k], integration);
    }
    assert forall k :: 0 <= k < |tasks| ==> Ids(tasks)[k] == tasks[k].id;
  }

  /** What an error says about the task it names. */
  ghost predicate Blames(tasks: seq<Task>, t: Task, integration: bool, e: PlanError) {
    match e
    case DuplicateDependency(i, f) =>
      && i == t.id && Repeats(t, f) && (f == "must" || (integration && f == "integration" && !Repeats(t, "must")))
    case MissingDependency(i, d) =>
      && i == t.id && !Repeats(t, "must") && (integration ==> !Repeats(t, "integration"))
      && Needs(t, integration, d) && !IsTask(tasks, d)
    case SelfDependency(i) =>
      && i == t.id && !Repeats(t, "must") && (integration ==> !Repeats(t, "integration"))
      && Needs(t, integration, t.id)
    case _ => false
  }

  /** An unsound plan is refused for a repeated id, or for the first task that is not sound. */
  lemma DefectLaw(tasks: seq<Task>, integration: bool, e: PlanError)
    ensures FirstDefect(tasks, Fields(integration), e) <==>
              if exists i, j :: 0 <= i < j < |tasks| && tasks[i].id == tasks[j].id then e == DuplicateTask
              else exists k :: 0 <= k < |tasks| && Blames(tasks, tasks[k], integration, e)
                               && forall m :: 0 <= m < k ==> SoundTask(tasks, tasks[m], integration)
  {
    hide SoundTask, CleanTask, Fields, Blames, TaskDefect;
    assert forall k :: 0 <= k < |tasks| ==> Ids(tasks)[k] == tasks[k].id;
    forall k | 0 <= k < |tasks|
      ensures CleanTask(tasks[k], Fields(integration), Elements(Ids(tasks))) <==>
                SoundTask(tasks, tasks[k], integration)
      ensures TaskDefect(tasks[k], Fields(integration), Elements(Ids(tasks)), e) <==>
                Blames(tasks, tasks[k], integration, e)
    {
      CleanTaskLaw(tasks, tasks[k], integration);
      BlameLaw(tasks, tasks[k], integration, e);
    }
  }

  lemma BlameLaw(tasks: seq<Task>, t: Task, integration: bool, e: PlanError)
    ensures TaskDefect(t, Fields(integration), Elements(Ids(tasks)), e) <==> Blames(tasks, t, integration, e)
  {
    hide Needs, Deps, IsTask, Repeats, Refs, CleanFields, Fields;
    match e
    case DuplicateDependency(_, f) => FieldLaw(t, integration, f);
    case MissingDependency(_, d) =>
      CleanFieldsLaw(t, integration);
      DepsLaw(t, integration, d);
      IsTaskLaw(tasks, d);
    case SelfDependency(_) =>
      CleanFieldsLaw(t, integration);
      DepsLaw(t, integration, t.id);
    case _ =>
  }

  /** The fields are read in their order. */
  lemma FieldLaw(t: Task, integration: bool, f: string)
    ensures (exists n :: 0 <= n < |Fields(integration)| && Fields(integration)[n] == f && !Distinct(Refs(t, f))
                         && CleanFields(t, Fields(integration)[..n])) <==>
              Repeats(t, f) && (f == "must" || (integration && f == "integration" && !Repeats(t, "must")))
  {
    hide Repeats, Refs;
    RepeatsLaw(t, f);
    RepeatsLaw(t, "must");
    var fields := Fields(integration);
    assert fields[0] == "must" && fields[..0] == [];
    if integration {
      assert fields[1] == "integration" && fields[..1] == ["must"];
      assert "must" in fields[..1];
    }
  }

  // ----- conflicts -----

  /** l is required by both tasks. */
  ghost predicate BothRequire(a: Task, b: Task, l: string) {
    (exists i :: 0 <= i < |a.requiredLocks| && a.requiredLocks[i] == l)
    && exists j :: 0 <= j < |b.requiredLocks| && b.requiredLocks[j] == l
  }

  /** The overlapping pairs in the order of the first list, and for each of its paths in that of the second. */
  function PairsFrom(p: string, qs: seq<string>): seq<(string, string)> {
    if qs == [] then [] else (if PathOverlap(p, qs[0]) then [(p, qs[0])] else []) + PairsFrom(p, qs[1..])
  }

  function AllPairs(ps: seq<string>, qs: seq<string>): seq<(string, string)> {
    if ps == [] then [] else PairsFrom(ps[0], qs) + AllPairs(ps[1..], qs)
  }

  lemma LastOverlap(p: string, qs: seq<string>)
    requires qs != []
    ensures OverlapsOf(p, qs) == OverlapsOf(p, Init(qs)) + (if PathOverlap(p, Last(qs)) then [(p, Last(qs))] else [])
  {
    hide PathOverlap;
  }

  lemma FirstPair(p: string, qs: seq<string>)
    requires qs != []
    ensures PairsFrom(p, qs) == (if PathOverlap(p, qs[0]) then [(p, qs[0])] else []) + PairsFrom(p, qs[1..])
  {
    hide PathOverlap;
  }

  lemma NoPairs(p: string)
    ensures OverlapsOf(p, []) == [] == PairsFrom(p, [])
  {
  }

  lemma {:induction false} PairsLaw(p: string, qs: seq<string>)
    ensures OverlapsOf(p, qs) == PairsFrom(p, qs)
  {
    hide PathOverlap, OverlapsOf, PairsFrom;
    NoPairs(p);
    if qs != [] {
      LastOverlap(p, qs);
      FirstPair(p, qs);
      PairsLaw(p, Init(qs));
      PairsLaw(p, qs[1..]);
      if |qs| == 1 {
        assert Init(qs) == [] == qs[1..];
      } else {
        LastOverlap(p, qs[1..]);
        FirstPair(p, Init(qs));
        PairsLaw(p, Init(qs[1..]));
        assert Init(qs)[1..] == Init(qs[1..]) && Init(qs)[0] == qs[0] && Last(qs[1..]) == Last(qs);
      }
    }
  }

  lemma {:induction false} OverlapsLaw(ps: seq<string>, qs: seq<string>)
    ensures Overlaps(ps, qs) == AllPairs(ps, qs)
  {
    hide OverlapsOf, PairsFrom;
    if ps != [] { PairsLaw(Last(ps), qs); }
    if |ps| == 1 {
      assert Init(ps) == [] == ps[1..];
    } else if ps != [] {
      OverlapsLaw(Init(ps), qs);
      OverlapsLaw(ps[1..], qs);
      OverlapsLaw(Init(ps[1..]), qs);
      PairsLaw(ps[0], qs);
      assert Init(ps)[1..] == Init(ps[1..]) && Init(ps)[0] == ps[0] && Last(ps[1..]) == Last(ps);
    }
  }

  /** The message is due: it names two tasks in order, and exactly what they share. */
  ghost predicate Warns(tasks: seq<Task>, c: Conflict) {
    && 0 <= c.first < c.second < |tasks|
    && match c
       case SharedLocks(n, m, locks) =>
         locks != {} && forall l :: l in locks <==> BothRequire(tasks[n], tasks[m], l)
       case SharedPaths(n, m, overlaps) =>
         overlaps != [] && overlaps == AllPairs(tasks[n].ownedPaths, tasks[m].ownedPaths)
  }

  lemma CommonLaw(a: Task, b: Task, l: string)
    ensures l in CommonLocks(a, b) <==> BothRequire(a, b, l)
  {
  }

  lemma PairLaw(tasks: seq<Task>, c: Conflict)
    requires c.first < c.second < |tasks|
    ensures c in PairConflicts(tasks, c.first, c.second) <==> Warns(tasks, c)
  {
    hide BothRequire, CommonLocks, Overlaps, AllPairs;
    var a, b := tasks[c.first], tasks[c.second];
    OverlapsLaw(a.ownedPaths, b.ownedPaths);
    forall l ensures l in CommonLocks(a, b) <==> BothRequire(a, b, l) { CommonLaw(a, b, l); }
    if c.SharedLocks? && Warns(tasks, c) { assert c.locks == CommonLocks(a, b); }
  }

  /** The messages that are listed are those that are due. */
  lemma ConflictLaw(tasks: seq<Task>, c: Conflict)
    ensures c in ConflictsUpTo(tasks, |tasks|) <==> Warns(tasks, c)
  {
    hide PairConflicts, ConflictsUpTo, BothRequire, AllPairs;
    ConflictMembers(tasks, |tasks|, c);
    if c.first < c.second < |tasks| { PairLaw(tasks, c); }
    if c in ConflictsUpTo(tasks, |tasks|) {
      var n, m :| 0 <= n < m < |tasks| && c in PairConflicts(tasks, n, m);
      PairNames(tasks, n, m);
    }
  }

  /** By the first task, then by the second, and locks before paths. */
  ghost predicate Earlier(a: Conflict, b: Conflict) {
    a.first < b.first
    || (a.first == b.first && (a.second < b.second || (a.second == b.second && a.SharedLocks? && b.SharedPaths?)))
  }

  ghost predicate InOrder(s: seq<Conflict>) {
    forall i, j :: 0 <= i < j < |s| ==> Earlier(s[i], s[j])
  }

  lemma PairNames(tasks: seq<Task>, n: nat, m: nat)
    requires n < |tasks| && m < |tasks|
    ensures forall c :: c in PairConflicts(tasks, n, m) ==> c.first == n && c.second == m
    ensures InOrder(PairConflicts(tasks, n, m))
  {
    hide CommonLocks, Overlaps;
  }

  lemma ConcatOrder(a: seq<Conflict>, b: seq<Conflict>)
    requires InOrder(a) && InOrder(b) && forall x, y :: x in a && y in b ==> Earlier(x, y)
    ensures InOrder(a + b)
  {
    hide Earlier;
    var s := a + b;
    forall i, j | 0 <= i < j < |s| ensures Earlier(s[i], s[j]) {
      if j < |a| { assert s[i] == a[i] && s[j] == a[j]; }
      else if i >= |a| { assert s[i] == b[i - |a|] && s[j] == b[j - |a|]; }
      else { assert s[i] in a && s[j] in b; }
    }
  }

  lemma {:induction false} RowOrder(tasks: seq<Task>, n: nat, m: nat)
    requires n < m <= |tasks|
    ensures InOrder(RowConflicts(tasks, n, m))
    ensures forall c :: c in RowConflicts(tasks, n, m) ==> c.first == n && c.second < m
  {
    hide PairConflicts, InOrder;
    if m == n + 1 {
      NothingInOrder();
    } else {
      RowOrder(tasks, n, m - 1);
      PairNames(tasks, n, m - 1);
      ConcatOrder(RowConflicts(tasks, n, m - 1), PairConflicts(tasks, n, m - 1));
    }
  }

  lemma NothingInOrder()
    ensures InOrder([])
  {
  }

  /** The list has the messages in the order of the two loops. */
  lemma {:induction false} OrderLaw(tasks: seq<Task>, n: nat)
    requires n <= |tasks|
    ensures InOrder(ConflictsUpTo(tasks, n)) && forall c :: c in ConflictsUpTo(tasks, n) ==> c.first < n
  {
    hide RowConflicts, InOrder;
    if n == 0 {
      NothingInOrder();
    } else {
      OrderLaw(tasks, n - 1);
      RowOrder(tasks, n - 1, |tasks|);
      ConcatOrder(ConflictsUpTo(tasks, n - 1), RowConflicts(tasks, n - 1, |tasks|));
    }
  }

  // ----- wildcards -----

  lemma WildcardLaw(s: string)
    ensures HasWildcard(s) <==> exists k :: 0 <= k < |s| && (s[k] == '?' || s[k] == '*' || s[k] == '[')
  {
    if k :| 0 <= k < |s| && (s[k] == '?' || s[k] == '*' || s[k] == '[') { assert IsWildcard(s[k]); }
  }
}
