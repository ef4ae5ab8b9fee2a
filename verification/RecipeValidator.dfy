/** The graph, commit and loop passes of `validate_recipe` (scripts/validate-recipe-contract.py). */
module RecipeValidator {
  import opened Common
  import opened RecipeGraph
  import opened RecipeListing
  import opened RecipeTraps
  import opened StripLaws

  // ----- can_reach_terminal -----

  class TerminalSearch {
    var memo: Memo
    var visiting: set<Node>

    constructor ()
      ensures memo == map[] && visiting == {}
    {
      memo, visiting := map[], {};
    }

    method CanReachTerminal(node: Node, edges: Edges) returns (found: bool)
      modifies this
      ensures (found, memo) == Search(edges, node, old(memo), old(visiting))
      ensures visiting == old(visiting)
      decreases edges.Keys - visiting
    {
      if node in TERMINALS { return true; }
      if node in memo { return memo[node]; }
      if node !in edges || node in visiting {
        if node !in edges {
          memo := memo[node := false];
          return false;
        }
        return false;
      }
      visiting := visiting + {node};
      ghost var during := visiting;
      ghost var start := memo;
      found := false;
      var k := 0;
      while k < |edges[node]| && !found
        invariant 0 <= k <= |edges[node]|
        invariant visiting == during
        invariant SearchAny(edges, edges[node], start, during)
               == if found then (true, memo) else SearchAny(edges, edges[node][k..], memo, during)
      {
        found := CanReachTerminal(edges[node][k], edges);
        k := k + 1;
      }
      visiting := visiting - {node};
      memo := memo[node := found];
    }
  }

  // ----- on_cycle -----

  /** The stack loop: true exactly when a non-empty walk leads from the node back to itself. */
  method IsOnCycle(node: Node, edges: Edges) returns (r: bool)
    ensures r <==> OnCycle(edges, node)
  {
    hide LeadsTo, OnCycle, Explored;
    var queue := if node in edges then edges[node] else [];
    var seen: set<Node> := {};
    forall q | q in queue ensures LeadsTo(edges, node, q) { FirstLead(edges, node, q); }
    ExploredFrom(edges, node, queue);
    while queue != []
      invariant seen <= edges.Keys && node !in seen
      invariant forall q :: q in queue || q in seen ==> LeadsTo(edges, node, q)
      invariant Explored(edges, node, seen, queue)
      decreases |edges.Keys - seen|, |queue|
    {
      var next := Last(queue);
      ghost var whole := queue;
      queue := Init(queue);
      assert forall q :: q in whole <==> q in queue || q == next;
      if next == node {
        LeadsBack(edges, node);
        return true;
      }
      ExploreNext(edges, node, seen, whole);
      if next in seen || next !in edges { continue; }
      assert edges.Keys - seen == (edges.Keys - (seen + {next})) + {next};
      seen := seen + {next};
      forall q | q in edges[next] ensures LeadsTo(edges, node, q) { LeadFurther(edges, node, next, q); }
      queue := queue + edges[next];
    }
    ExploredHasNoCycle(edges, node, seen);
    return false;
  }

  ghost predicate LeadsTo(edges: Edges, a: Node, b: Node) {
    exists w :: Lead(edges, a, b, w)
  }

  ghost predicate Lead(edges: Edges, a: Node, b: Node, w: seq<Node>) {
    Walk(edges, w) && |w| >= 2 && w[0] == a && Last(w) == b
  }

  lemma FirstLead(edges: Edges, a: Node, b: Node)
    requires a in edges && b in edges[a]
    ensures LeadsTo(edges, a, b)
  {
    assert Lead(edges, a, b, [a, b]);
  }

  lemma LeadFurther(edges: Edges, a: Node, b: Node, c: Node)
    requires LeadsTo(edges, a, b) && b in edges && c in edges[b]
    ensures LeadsTo(edges, a, c)
  {
    var w :| Lead(edges, a, b, w);
    assert Lead(edges, a, c, w + [c]);
  }

  lemma LeadsBack(edges: Edges, a: Node)
    requires LeadsTo(edges, a, a)
    ensures OnCycle(edges, a)
  {
    var w :| Lead(edges, a, a, w);
    assert ClosedWalk(edges, a, w);
  }

  /** Every successor of the node and of the seen states is queued, seen, or no state. */
  ghost predicate Explored(edges: Edges, node: Node, seen: set<Node>, queue: seq<Node>) {
    forall s, t :: (s == node || s in seen) && s in edges && t in edges[s] ==>
      t in queue || (t != node && (t in seen || t !in edges))
  }

  lemma ExploredFrom(edges: Edges, node: Node, queue: seq<Node>)
    requires queue == if node in edges then edges[node] else []
    ensures Explored(edges, node, {}, queue)
  {
  }

  /** One turn of the loop, on the last node of the queue. */
  lemma ExploreNext(edges: Edges, node: Node, seen: set<Node>, queue: seq<Node>)
    requires queue != [] && Last(queue) != node && Explored(edges, node, seen, queue)
    ensures Last(queue) in seen || Last(queue) !in edges ==> Explored(edges, node, seen, Init(queue))
    ensures Last(queue) in edges ==> Explored(edges, node, seen + {Last(queue)}, Init(queue) + edges[Last(queue)])
  {
    assert forall q :: q in queue <==> q in Init(queue) || q == Last(queue);
  }

  lemma {:induction false} ExploredWalk(edges: Edges, node: Node, seen: set<Node>, w: seq<Node>)
    requires Explored(edges, node, seen, []) && Walk(edges, w) && |w| >= 2 && w[0] == node
    ensures Last(w) != node && (Last(w) in seen || Last(w) !in edges)
  {
    if |w| == 2 {
      assert w[1] in edges[w[0]];
    } else {
      ExploredWalk(edges, node, seen, Init(w));
      assert w[|w| - 2] in edges && w[|w| - 1] in edges[w[|w| - 2]];
    }
  }

  lemma ExploredHasNoCycle(edges: Edges, node: Node, seen: set<Node>)
    requires Explored(edges, node, seen, [])
    ensures !OnCycle(edges, node)
  {
    if w :| ClosedWalk(edges, node, w) {
      ExploredWalk(edges, node, seen, w);
    }
  }

  // ----- the states of a recipe -----

  datatype State = State(
    id: Node, action: string, locator: Option<string>, postcondition: bool,
    onSuccess: Option<string>, onFailure: Option<string>, retryBudget: bool)

  datatype Violation =
    | StateIdDuplicate(id: Node)
    | StartStateMissing
    | EdgeTargetUnknown(id: Node, target: Node)
    | CommitStateMissing
    | CommitShapeInvalid
    | CommitNotRetryable
    | LoopNonTerminating(id: Node)
    | IrreversibleLocatorInLoop(id: Node)
    | CommitInLoop(id: Node)

  datatype Recipe = Recipe(states: seq<State>, start: Node, commit: Option<Node>, irreversible: set<string>)

  /** An edge that is absent or blank adds no target. */
  function Target(edge: Option<string>): set<Node> {
    if edge.Some? && Strip(edge.value) != "" then {edge.value} else {}
  }

  function Targets(s: State): set<Node> {
    Target(s.onSuccess) + Target(s.onFailure)
  }

  /** The targets of all states that share an id. */
  function TargetsOf(states: seq<State>, id: Node): set<Node> {
    set s, t | s in states && s.id == id && t in Targets(s) :: t
  }

  predicate HasId(states: seq<State>, id: Node) {
    exists k :: 0 <= k < |states| && states[k].id == id
  }

  /** A later state replaces an earlier one with the same id. */
  function StateOf(states: seq<State>, id: Node): State
    requires HasId(states, id)
  {
    if Last(states).id == id then Last(states)
    else
      assert HasId(Init(states), id) by {
        var k :| 0 <= k < |states| && states[k].id == id;
        assert Init(states)[k].id == id;
      }
      StateOf(Init(states), id)
  }

  /** State ids in the order of first appearance: the order of a Python dict. */
  function Keys(states: seq<State>): (r: seq<Node>)
    ensures Distinct(r) && forall id :: id in r <==> HasId(states, id)
  {
    if states == [] then []
    else
      var before := Keys(Init(states));
      assert forall id :: HasId(states, id) <==> HasId(Init(states), id) || id == Last(states).id by {
        forall id ensures HasId(states, id) <==> HasId(Init(states), id) || id == Last(states).id {
          if HasId(Init(states), id) {
            var k :| 0 <= k < |Init(states)| && Init(states)[k].id == id;
            assert states[k].id == id;
          }
          if id == Last(states).id { assert states[|states| - 1].id == id; }
          if HasId(states, id) && id != Last(states).id {
            var k :| 0 <= k < |states| && states[k].id == id;
            assert Init(states)[k].id == id;
          }
        }
      }
      if Last(states).id in before then before else before + [Last(states).id]
  }

  /** `arrange` gives the order in which Python happens to iterate the successor set of a state, each element once. */
  ghost predicate Arranges(arrange: (Node, set<Node>) -> seq<Node>) {
    forall n, s :: Elements(arrange(n, s)) == s && Distinct(arrange(n, s))
  }

  function EdgesOf(states: seq<State>, arrange: (Node, set<Node>) -> seq<Node>): Edges {
    map id | id in Keys(states) :: arrange(id, TargetsOf(states, id))
  }

  predicate CommitShapeBad(c: State) {
    c.action != "tap" || c.locator.None? || c.locator.value == "" || !c.postcondition
    || c.onSuccess != Some("SUCCEEDED") || c.onFailure.Some?
  }

  /** What each message of the graph, commit and loop passes says about the recipe. */
  ghost predicate IsViolation(r: Recipe, edges: Edges, v: Violation) {
    match v
    case StateIdDuplicate(id) => exists i, j :: 0 <= i < j < |r.states| && r.states[i].id == id == r.states[j].id
    case StartStateMissing => !HasId(r.states, r.start)
    case EdgeTargetUnknown(id, t) =>
      HasId(r.states, id) && t in TargetsOf(r.states, id) && !HasId(r.states, t) && t !in TERMINALS
    case CommitStateMissing => CommitNamed(r) && !HasId(r.states, r.commit.value)
    case CommitShapeInvalid => CommitNamed(r) && HasId(r.states, r.commit.value)
      && CommitShapeBad(StateOf(r.states, r.commit.value))
    case CommitNotRetryable => CommitNamed(r) && HasId(r.states, r.commit.value)
      && StateOf(r.states, r.commit.value).retryBudget
    case LoopNonTerminating(id) => id in Flagged(edges, Keys(r.states), map[])
    case IrreversibleLocatorInLoop(id) =>
      HasId(r.states, id) && OnCycle(edges, id) && IsIrreversible(r, StateOf(r.states, id))
    case CommitInLoop(id) => HasId(r.states, id) && OnCycle(edges, id) && r.commit == Some(id)
  }

  /** `if commit_id:` skips a missing and an empty name. */
  predicate CommitNamed(r: Recipe) {
    r.commit.Some? && r.commit.value != ""
  }

  predicate IsIrreversible(r: Recipe, s: State) {
    s.locator.Some? && s.locator.value in r.irreversible
  }

  // ----- the same in terms of the states alone -----

  /** One of the edges of a state: a target that is not blank. */
  ghost predicate HasEdge(s: State, t: Node) {
    (s.onSuccess == Some(t) || s.onFailure == Some(t)) && !AllSpaces(t)
  }

  ghost predicate Declared(states: seq<State>, id: Node) {
    exists k :: 0 <= k < |states| && states[k].id == id
  }

  /** All states of an id lend it their edges. */
  ghost predicate LeadsOn(states: seq<State>, id: Node, t: Node) {
    exists k :: 0 <= k < |states| && states[k].id == id && HasEdge(states[k], t)
  }

  /** The last state of an id is the one that counts for everything else. */
  ghost predicate Latest(states: seq<State>, id: Node, s: State) {
    exists k :: 0 <= k < |states| && IsLatest(states, id, s, k)
  }

  ghost predicate IsLatest(states: seq<State>, id: Node, s: State, k: nat)
    requires k < |states|
  {
    states[k] == s && s.id == id && forall j :: k < j < |states| ==> states[j].id != id
  }

  ghost predicate StateWalk(states: seq<State>, w: seq<Node>) {
    w != [] && forall k :: 0 <= k < |w| - 1 ==> LeadsOn(states, w[k], w[k + 1])
  }

  ghost predicate StateLoop(states: seq<State>, id: Node, w: seq<Node>) {
    StateWalk(states, w) && |w| >= 2 && w[0] == id && w[|w| - 1] == id
  }

  ghost predicate InLoop(states: seq<State>, id: Node) {
    exists w :: StateLoop(states, id, w)
  }

  predicate IsTerminal(t: Node) {
    t == "SUCCEEDED" || t == "FAILED" || t == "WAITING_USER"
  }

  /** One tap that says where and what follows, that ends in success and goes nowhere else. */
  predicate GoodCommit(s: State) {
    && s.action == "tap" && s.locator.Some? && s.locator.value != "" && s.postcondition
    && s.onSuccess == Some("SUCCEEDED") && s.onFailure == None
  }

  /**
   * When each message is due. For non-termination that is the verdict of the shared memo, which RecipeTraps and
   * RecipeListing are about.
   */
  ghost predicate Due(r: Recipe, edges: Edges, v: Violation) {
    match v
    case StateIdDuplicate(id) => exists i, j :: 0 <= i < j < |r.states| && r.states[i].id == id && r.states[j].id == id
    case StartStateMissing => !Declared(r.states, r.start)
    case EdgeTargetUnknown(id, t) => LeadsOn(r.states, id, t) && !Declared(r.states, t) && !IsTerminal(t)
    case CommitStateMissing => r.commit.Some? && r.commit.value != "" && !Declared(r.states, r.commit.value)
    case CommitShapeInvalid =>
      r.commit.Some? && r.commit.value != "" && exists s :: Latest(r.states, r.commit.value, s) && !GoodCommit(s)
    case CommitNotRetryable =>
      r.commit.Some? && r.commit.value != "" && exists s :: Latest(r.states, r.commit.value, s) && s.retryBudget
    case LoopNonTerminating(id) => id in Flagged(edges, Keys(r.states), map[])
    case IrreversibleLocatorInLoop(id) =>
      && InLoop(r.states, id)
      && exists s :: Latest(r.states, id, s) && s.locator.Some? && s.locator.value in r.irreversible
    case CommitInLoop(id) => InLoop(r.states, id) && Declared(r.states, id) && r.commit == Some(id)
  }

  lemma TargetsLaw(s: State, t: Node)
    ensures t in Targets(s) <==> HasEdge(s, t)
  {
    hide AllSpaces, Strip;
    BlankLaw(t);
  }

  lemma TargetsOfLaw(states: seq<State>, id: Node, t: Node)
    ensures t in TargetsOf(states, id) <==> LeadsOn(states, id, t)
  {
    hide HasEdge, Targets;
    forall s ensures t in Targets(s) <==> HasEdge(s, t) { TargetsLaw(s, t); }
    if t in TargetsOf(states, id) {
      var s :| s in states && s.id == id && t in Targets(s);
      var k :| 0 <= k < |states| && states[k] == s;
    }
    if LeadsOn(states, id, t) {
      var k :| 0 <= k < |states| && states[k].id == id && HasEdge(states[k], t);
      assert states[k] in states && t in Targets(states[k]);
    }
  }

  lemma {:induction false} LatestLaw(states: seq<State>, id: Node)
    requires HasId(states, id)
    ensures Latest(states, id, StateOf(states, id))
    ensures forall s :: Latest(states, id, s) ==> s == StateOf(states, id)
  {
    if Last(states).id == id {
      assert IsLatest(states, id, Last(states), |states| - 1);
    } else {
      var k :| 0 <= k < |states| && states[k].id == id;
      assert Init(states)[k].id == id;
      LatestLaw(Init(states), id);
      var l :| 0 <= l < |Init(states)| && IsLatest(Init(states), id, StateOf(Init(states), id), l);
      assert IsLatest(states, id, StateOf(states, id), l);
      forall s | Latest(states, id, s) ensures s == StateOf(states, id) {
        var m :| 0 <= m < |states| && IsLatest(states, id, s, m);
        assert IsLatest(Init(states), id, s, m);
      }
    }
  }

  lemma WalkLaw(states: seq<State>, arrange: (Node, set<Node>) -> seq<Node>, w: seq<Node>)
    requires Arranges(arrange)
    ensures Walk(EdgesOf(states, arrange), w) <==> StateWalk(states, w)
  {
    hide Arranges, EdgesOf, LeadsOn;
    var edges := EdgesOf(states, arrange);
    if Walk(edges, w) {
      forall k | 0 <= k < |w| - 1 ensures LeadsOn(states, w[k], w[k + 1]) {
        EdgeLaw(states, arrange, w[k], w[k + 1]);
        assert w[k] in edges && w[k + 1] in edges[w[k]];
      }
    }
    if StateWalk(states, w) {
      forall k | 0 <= k < |w| - 1 ensures w[k] in edges && w[k + 1] in edges[w[k]] {
        EdgeLaw(states, arrange, w[k], w[k + 1]);
        assert LeadsOn(states, w[k], w[k + 1]);
      }
    }
  }

  /** The edge table, whatever order the sets are iterated in. */
  lemma EdgeLaw(states: seq<State>, arrange: (Node, set<Node>) -> seq<Node>, id: Node, t: Node)
    requires Arranges(arrange)
    ensures id in EdgesOf(states, arrange) && t in EdgesOf(states, arrange)[id] <==> LeadsOn(states, id, t)
  {
    hide Keys, TargetsOf;
    TargetsOfLaw(states, id, t);
    var s := TargetsOf(states, id);
    assert t in arrange(id, s) <==> t in Elements(arrange(id, s));
  }

  lemma LoopLaw(states: seq<State>, arrange: (Node, set<Node>) -> seq<Node>, id: Node)
    requires Arranges(arrange)
    ensures OnCycle(EdgesOf(states, arrange), id) <==> InLoop(states, id)
  {
    hide Arranges, EdgesOf, Walk, StateWalk;
    var edges := EdgesOf(states, arrange);
    if OnCycle(edges, id) {
      var w :| ClosedWalk(edges, id, w);
      WalkLaw(states, arrange, w);
      assert StateLoop(states, id, w);
    }
    if InLoop(states, id) {
      var w :| StateLoop(states, id, w);
      WalkLaw(states, arrange, w);
      assert ClosedWalk(edges, id, w);
    }
  }

  /** Where a loop leads through there is a state. */
  lemma LoopIsDeclared(states: seq<State>, id: Node)
    ensures InLoop(states, id) ==> HasId(states, id)
  {
    hide HasEdge;
    if w :| StateLoop(states, id, w) {
      assert LeadsOn(states, w[0], w[1]);
      var k :| 0 <= k < |states| && states[k].id == w[0] && HasEdge(states[k], w[1]);
    }
  }

  /** The definition in terms of tables says the same. */
  lemma DueLaw(r: Recipe, arrange: (Node, set<Node>) -> seq<Node>, v: Violation)
    requires Arranges(arrange)
    ensures IsViolation(r, EdgesOf(r.states, arrange), v) <==> Due(r, EdgesOf(r.states, arrange), v)
  {
    hide Arranges, EdgesOf, Flagged, Keys, TargetsOf, LeadsOn, InLoop, OnCycle, Latest;
    match v
    case EdgeTargetUnknown(id, t) =>
      TargetsOfLaw(r.states, id, t);
      LeadIsDeclared(r.states, id, t);
    case CommitShapeInvalid =>
      if CommitNamed(r) && HasId(r.states, r.commit.value) { LatestLaw(r.states, r.commit.value); }
      LatestIsDeclared(r.states, if r.commit.Some? then r.commit.value else "");
    case CommitNotRetryable =>
      if CommitNamed(r) && HasId(r.states, r.commit.value) { LatestLaw(r.states, r.commit.value); }
      LatestIsDeclared(r.states, if r.commit.Some? then r.commit.value else "");
    case IrreversibleLocatorInLoop(id) =>
      LoopLaw(r.states, arrange, id);
      LoopIsDeclared(r.states, id);
      if HasId(r.states, id) { LatestLaw(r.states, id); }
    case CommitInLoop(id) => LoopLaw(r.states, arrange, id);
    case _ =>
  }

  lemma LeadIsDeclared(states: seq<State>, id: Node, t: Node)
    ensures LeadsOn(states, id, t) ==> HasId(states, id)
  {
  }

  lemma LatestIsDeclared(states: seq<State>, id: Node)
    ensures forall s :: Latest(states, id, s) ==> HasId(states, id)
  {
  }

  // ----- the passes -----

  datatype Tables = Tables(keys: seq<Node>, byId: map<Node, State>, targets: map<Node, set<Node>>)

  ghost predicate TablesOf(states: seq<State>, t: Tables) {
    && t.keys == Keys(states)
    && t.byId.Keys == t.targets.Keys == Elements(t.keys)
    && forall id :: HasId(states, id) ==> t.byId[id] == StateOf(states, id) && t.targets[id] == TargetsOf(states, id)
  }

  lemma HasIdAppend(states: seq<State>, s: State, id: Node)
    ensures HasId(states + [s], id) <==> HasId(states, id) || id == s.id
  {
    var more := states + [s];
    if HasId(states, id) { var k :| 0 <= k < |states| && states[k].id == id; assert more[k].id == id; }
    if id == s.id { assert more[|states|].id == id; }
    if HasId(more, id) && id != s.id { var k :| 0 <= k < |more| && more[k].id == id; assert states[k].id == id; }
  }

  lemma TargetsAppend(states: seq<State>, s: State, id: Node)
    ensures TargetsOf(states + [s], id) == TargetsOf(states, id) + (if id == s.id then Targets(s) else {})
  {
    assert forall x :: x in states + [s] <==> x in states || x == s;
  }

  lemma KeysAppend(states: seq<State>, s: State)
    ensures Keys(states + [s]) == if HasId(states, s.id) then Keys(states) else Keys(states) + [s.id]
  {
    hide HasId;
    assert Init(states + [s]) == states;
  }

  lemma StateAppend(states: seq<State>, s: State, id: Node)
    requires HasId(states + [s], id)
    ensures id == s.id ==> StateOf(states + [s], id) == s
    ensures id != s.id ==> HasId(states, id) && StateOf(states + [s], id) == StateOf(states, id)
  {
    assert Init(states + [s]) == states;
    HasIdAppend(states, s, id);
  }

  function WithState(t: Tables, s: State): Tables {
    var known := if s.id in t.targets then t.targets[s.id] else {};
    Tables(if s.id in t.byId then t.keys else t.keys + [s.id], t.byId[s.id := s], t.targets[s.id := known + Targets(s)])
  }

  lemma EntryAppend(states: seq<State>, s: State, t: Tables, id: Node)
    requires TablesOf(states, t) && HasId(states + [s], id)
    ensures var more := WithState(t, s);
            id in more.byId && id in more.targets && more.byId[id] == StateOf(states + [s], id)
            && more.targets[id] == TargetsOf(states + [s], id)
  {
    hide TargetsOf, Targets, HasId, StateOf;
    StateAppend(states, s, id);
    TargetsAppend(states, s, id);
    assert id in t.keys <==> HasId(states, id);
    if !HasId(states, id) { NoStateNoTargets(states, id); }
  }

  lemma TablesAppend(states: seq<State>, s: State, t: Tables)
    requires TablesOf(states, t)
    ensures TablesOf(states + [s], WithState(t, s))
  {
    hide TargetsOf, Targets, HasId, StateOf, Keys;
    assert s.id in t.byId <==> HasId(states, s.id) by { assert s.id in t.keys <==> HasId(states, s.id); }
    KeysAppend(states, s);
    forall id | HasId(states + [s], id)
      ensures WithState(t, s).byId[id] == StateOf(states + [s], id)
              && WithState(t, s).targets[id] == TargetsOf(states + [s], id)
    {
      EntryAppend(states, s, t, id);
    }
  }

  lemma NoStateNoTargets(states: seq<State>, id: Node)
    requires !HasId(states, id)
    ensures TargetsOf(states, id) == {}
  {
    forall s | s in states ensures s.id != id {
      var k :| 0 <= k < |states| && states[k] == s;
      assert states[k].id == s.id;
    }
  }

  method ReadStates(states: seq<State>) returns (t: Tables, out: seq<Violation>)
    ensures TablesOf(states, t)
    ensures forall v :: v in out <==>
            v.StateIdDuplicate? && exists i, j :: 0 <= i < j < |states| && states[i].id == v.id == states[j].id
  {
    hide TablesOf;
    t, out := Tables([], map[], map[]), [];
    EmptyTables(t);
    for n := 0 to |states|
      invariant TablesOf(states[..n], t)
      invariant forall v :: v in out <==>
                v.StateIdDuplicate? && exists i, j :: 0 <= i < j < n && states[i].id == v.id == states[j].id
    {
      var s := states[n];
      KnownIds(states[..n], t, s.id);
      if s.id in t.byId { out := out + [StateIdDuplicate(s.id)]; }
      assert states[..n + 1] == states[..n] + [s];
      TablesAppend(states[..n], s, t);
      t := WithState(t, s);
    }
    assert states[..|states|] == states;
  }

  lemma EmptyTables(t: Tables)
    requires t == Tables([], map[], map[])
    ensures TablesOf([], t)
  {
  }

  lemma KnownIds(states: seq<State>, t: Tables, id: Node)
    requires TablesOf(states, t)
    ensures id in t.byId <==> exists k :: 0 <= k < |states| && states[k].id == id
  {
    assert id in t.keys <==> HasId(states, id);
  }

  /** The messages about the targets of one state. */
  method TargetMessages(t: Tables, id: Node) returns (out: seq<Violation>)
    requires id in t.targets
    ensures forall v :: v in out <==> && v.EdgeTargetUnknown? && v.id == id && v.target in t.targets[id]
                                      && v.target !in t.byId && v.target !in TERMINALS
  {
    out := [];
    var rest := t.targets[id];
    while rest != {}
      invariant rest <= t.targets[id]
      invariant forall v :: v in out <==> && v.EdgeTargetUnknown? && v.id == id && v.target in t.targets[id] - rest
                                          && v.target !in t.byId && v.target !in TERMINALS
      decreases rest
    {
      var target :| target in rest;
      if target !in t.byId && target !in TERMINALS { out := out + [EdgeTargetUnknown(id, target)]; }
      rest := rest - {target};
    }
  }

  lemma UnknownTarget(r: Recipe, t: Tables, v: Violation)
    requires TablesOf(r.states, t) && v.EdgeTargetUnknown?
    ensures t.byId.Keys == t.targets.Keys == Elements(t.keys)
    ensures IsViolation(r, map[], v) <==> && v.id in t.targets && v.target in t.targets[v.id]
                                          && v.target !in t.byId && v.target !in TERMINALS
  {
    assert v.id in t.keys <==> HasId(r.states, v.id);
    assert v.target in t.keys <==> HasId(r.states, v.target);
  }

  method CheckTargets(r: Recipe, t: Tables) returns (out: seq<Violation>)
    requires TablesOf(r.states, t)
    ensures forall v :: v in out <==> v.EdgeTargetUnknown? && IsViolation(r, map[], v)
  {
    hide TablesOf, IsViolation;
    out := [];
    TableKeys(r.states, t);
    for n := 0 to |t.keys|
      invariant forall v :: v in out <==> && v.EdgeTargetUnknown? && v.id in t.keys[..n] && v.target in t.targets[v.id]
                                          && v.target !in t.byId && v.target !in TERMINALS
    {
      var more := TargetMessages(t, t.keys[n]);
      out := out + more;
      assert t.keys[..n + 1] == t.keys[..n] + [t.keys[n]];
    }
    assert t.keys[..|t.keys|] == t.keys;
    forall v: Violation | v.EdgeTargetUnknown?
      ensures v in out <==> IsViolation(r, map[], v)
    {
      UnknownTarget(r, t, v);
    }
  }

  lemma TableKeys(states: seq<State>, t: Tables)
    requires TablesOf(states, t)
    ensures t.byId.Keys == t.targets.Keys && forall id :: id in t.keys <==> id in t.targets
  {
    forall id ensures id in t.keys <==> id in t.targets { assert id in Elements(t.keys) <==> id in t.keys; }
  }

  method CheckCommit(r: Recipe, t: Tables) returns (out: seq<Violation>)
    requires TablesOf(r.states, t)
    ensures forall v :: v in out <==>
            (v.CommitStateMissing? || v.CommitShapeInvalid? || v.CommitNotRetryable?) && IsViolation(r, map[], v)
  {
    out := [];
    if r.commit.None? || r.commit.value == "" { return; }
    assert r.commit.value in t.keys <==> HasId(r.states, r.commit.value);
    if r.commit.value !in t.byId { return [CommitStateMissing]; }
    var commit := t.byId[r.commit.value];
    if CommitShapeBad(commit) { out := out + [CommitShapeInvalid]; }
    if commit.retryBudget { out := out + [CommitNotRetryable]; }
  }

  /** The loop policy, part one: one memo shared by all states. */
  method CheckTermination(keys: seq<Node>, edges: Edges) returns (out: seq<Violation>)
    ensures forall v :: v in out <==> v.LoopNonTerminating? && v.id in Flagged(edges, keys, map[])
  {
    hide Flagged, Search;
    out := [];
    var search := new TerminalSearch();
    ghost var flagged: seq<Node> := [];
    assert keys[0..] == keys;
    for n := 0 to |keys|
      invariant fresh(search) && search.visiting == {}
      invariant Flagged(edges, keys, map[]) == flagged + Flagged(edges, keys[n..], search.memo)
      invariant forall v :: v in out <==> v.LoopNonTerminating? && v.id in flagged
    {
      FlaggedStep(edges, keys, n, search.memo);
      var found := search.CanReachTerminal(keys[n], edges);
      if !found {
        out := out + [LoopNonTerminating(keys[n])];
        flagged := flagged + [keys[n]];
      }
    }
    assert keys[|keys|..] == [];
    FlaggedNone(edges, search.memo);
  }

  lemma FlaggedStep(edges: Edges, keys: seq<Node>, n: nat, memo: Memo)
    requires n < |keys|
    ensures var (found, m) := Search(edges, keys[n], memo, {});
            Flagged(edges, keys[n..], memo) == (if found then [] else [keys[n]]) + Flagged(edges, keys[n + 1..], m)
  {
    hide Search;
    assert keys[n..][0] == keys[n] && keys[n..][1..] == keys[n + 1..];
  }

  lemma FlaggedNone(edges: Edges, memo: Memo)
    ensures Flagged(edges, [], memo) == []
  {
  }

  /** The loop policy, part two. */
  method CheckCycles(r: Recipe, t: Tables, edges: Edges) returns (out: seq<Violation>)
    requires TablesOf(r.states, t)
    ensures forall v :: v in out <==> (v.IrreversibleLocatorInLoop? || v.CommitInLoop?) && IsViolation(r, edges, v)
  {
    hide OnCycle, IsViolation, TablesOf, IsIrreversible;
    out := [];
    for n := 0 to |t.keys|
      invariant forall v :: v in out <==>
        (v.IrreversibleLocatorInLoop? || v.CommitInLoop?) && v.id in t.keys[..n] && IsViolation(r, edges, v)
    {
      var id := t.keys[n];
      assert t.keys[..n + 1] == t.keys[..n] + [id];
      CycleMessages(r, t, edges, id);
      var cyclic := IsOnCycle(id, edges);
      if !cyclic { continue; }
      if IsIrreversible(r, t.byId[id]) { out := out + [IrreversibleLocatorInLoop(id)]; }
      if r.commit == Some(id) { out := out + [CommitInLoop(id)]; }
    }
    assert t.keys[..|t.keys|] == t.keys;
    ListedIds(r, t, edges);
  }

  lemma CycleMessages(r: Recipe, t: Tables, edges: Edges, id: Node)
    requires TablesOf(r.states, t) && id in t.keys
    ensures id in t.byId
    ensures IsViolation(r, edges, IrreversibleLocatorInLoop(id)) <==>
            OnCycle(edges, id) && IsIrreversible(r, t.byId[id])
    ensures IsViolation(r, edges, CommitInLoop(id)) <==> OnCycle(edges, id) && r.commit == Some(id)
  {
    hide OnCycle, IsIrreversible;
    assert HasId(r.states, id);
  }

  lemma ListedIds(r: Recipe, t: Tables, edges: Edges)
    requires TablesOf(r.states, t)
    ensures forall v: Violation :: (v.IrreversibleLocatorInLoop? || v.CommitInLoop?) && IsViolation(r, edges, v) ==>
            v.id in t.keys
  {
  }

  /** The passes in order. Every message is listed exactly when it is true of the recipe. */
  method ValidateGraph(r: Recipe, arrange: (Node, set<Node>) -> seq<Node>) returns (out: seq<Violation>)
    ensures forall v :: v in out <==> IsViolation(r, EdgesOf(r.states, arrange), v)
    ensures Arranges(arrange) ==> forall v :: v in out <==> Due(r, EdgesOf(r.states, arrange), v)
  {
    hide IsViolation, Due, TablesOf, Arranges;
    var t, duplicates := ReadStates(r.states);
    var missing := if r.start in t.byId then [] else [StartStateMissing];
    var unknown := CheckTargets(r, t);
    var commit := CheckCommit(r, t);
    var edges := ArrangedEdges(r, t, arrange);
    var endless := CheckTermination(t.keys, edges);
    var cycles := CheckCycles(r, t, edges);
    out := duplicates + missing + unknown + commit + endless + cycles;
    forall v ensures v in out <==> IsViolation(r, edges, v) {
      SplitViolation(r, t, edges, v);
    }
    if Arranges(arrange) {
      forall v ensures v in out <==> Due(r, edges, v) { DueLaw(r, arrange, v); }
    }
  }

  method ArrangedEdges(r: Recipe, t: Tables, arrange: (Node, set<Node>) -> seq<Node>) returns (edges: Edges)
    requires TablesOf(r.states, t)
    ensures edges == EdgesOf(r.states, arrange)
  {
    edges := map id | id in t.keys :: arrange(id, t.targets[id]);
  }

  lemma SplitViolation(r: Recipe, t: Tables, edges: Edges, v: Violation)
    requires TablesOf(r.states, t)
    ensures IsViolation(r, edges, v) <==>
      match v
      case StateIdDuplicate(id) => exists i, j :: 0 <= i < j < |r.states| && r.states[i].id == id == r.states[j].id
      case StartStateMissing => r.start !in t.byId
      case EdgeTargetUnknown(_, _) => IsViolation(r, map[], v)
      case CommitStateMissing => IsViolation(r, map[], v)
      case CommitShapeInvalid => IsViolation(r, map[], v)
      case CommitNotRetryable => IsViolation(r, map[], v)
      case LoopNonTerminating(id) => id in Flagged(edges, t.keys, map[])
      case _ => IsViolation(r, edges, v)
  {
    assert r.start in t.keys <==> HasId(r.states, r.start);
  }

  // ----- what an accepted recipe is worth -----

  ghost predicate Accepted(r: Recipe, edges: Edges) {
    forall v :: !IsViolation(r, edges, v)
  }

  lemma EdgesAreTargets(r: Recipe, arrange: (Node, set<Node>) -> seq<Node>, id: Node)
    requires Arranges(arrange) && HasId(r.states, id)
    ensures var edges := EdgesOf(r.states, arrange);
            id in edges && forall t :: t in edges[id] <==> t in TargetsOf(r.states, id)
  {
    var listed := arrange(id, TargetsOf(r.states, id));
    assert Elements(listed) == TargetsOf(r.states, id);
    forall t ensures t in listed <==> t in TargetsOf(r.states, id) { assert t in listed <==> t in Elements(listed); }
    assert id in Keys(r.states);
  }

  /** Every state of an accepted recipe can finish. */
  lemma AcceptedCanFinish(r: Recipe, arrange: (Node, set<Node>) -> seq<Node>, id: Node)
    requires Accepted(r, EdgesOf(r.states, arrange)) && HasId(r.states, id)
    ensures Reaches(EdgesOf(r.states, arrange), id)
  {
    var edges := EdgesOf(r.states, arrange);
    assert !IsViolation(r, edges, LoopNonTerminating(id));
    UnflaggedReaches(edges, Keys(r.states), map[], id);
  }

  /** Every walk of an accepted recipe that starts at a state stays within its states and the terminals. */
  lemma {:induction false} AcceptedWalkIsResolved(r: Recipe, arrange: (Node, set<Node>) -> seq<Node>, w: seq<Node>)
    requires Arranges(arrange) && Accepted(r, EdgesOf(r.states, arrange))
    requires Walk(EdgesOf(r.states, arrange), w) && HasId(r.states, w[0])
    ensures HasId(r.states, Last(w)) || Last(w) in TERMINALS
  {
    if |w| > 1 {
      var edges := EdgesOf(r.states, arrange);
      var from, to := w[|w| - 2], w[|w| - 1];
      assert from in edges && to in edges[from];
      assert from in Keys(r.states);
      EdgesAreTargets(r, arrange, from);
      assert !IsViolation(r, edges, EdgeTargetUnknown(from, to));
    }
  }

  /** A state off every cycle occurs at most once on any walk. */
  lemma OffCycleOnce(edges: Edges, n: Node, w: seq<Node>, i: nat, j: nat)
    requires Walk(edges, w) && i < j < |w| && w[i] == n == w[j]
    ensures OnCycle(edges, n)
  {
    assert ClosedWalk(edges, n, w[i..j + 1]);
  }

  ghost predicate AtMostOnce(w: seq<Node>, n: Node) {
    forall i, j :: 0 <= i < j < |w| ==> !(w[i] == n && w[j] == n)
  }

  /**
   * In an accepted recipe every walk, of any length and from any state, visits the commit state at most once
   * and each state with an irreversible locator at most once.
   */
  lemma AcceptedIsSingleShot(r: Recipe, arrange: (Node, set<Node>) -> seq<Node>, w: seq<Node>, n: Node)
    requires Accepted(r, EdgesOf(r.states, arrange)) && Walk(EdgesOf(r.states, arrange), w)
    requires HasId(r.states, n)
    requires r.commit == Some(n)
             || exists l :: StateOf(r.states, n).locator == Some(l) && l in r.irreversible
    ensures AtMostOnce(w, n)
  {
    var edges := EdgesOf(r.states, arrange);
    assert !IsViolation(r, edges, CommitInLoop(n)) && !IsViolation(r, edges, IrreversibleLocatorInLoop(n));
    forall i, j | 0 <= i < j < |w| && w[i] == n && w[j] == n ensures false {
      OffCycleOnce(edges, n, w, i, j);
    }
  }

  /** From the commit state of an accepted recipe a walk can only go to SUCCEEDED. */
  lemma AcceptedCommitSucceeds(r: Recipe, arrange: (Node, set<Node>) -> seq<Node>, w: seq<Node>, k: nat)
    requires Arranges(arrange) && Accepted(r, EdgesOf(r.states, arrange)) && Walk(EdgesOf(r.states, arrange), w)
    requires CommitNamed(r) && k + 1 < |w| && w[k] == r.commit.value
    ensures w[k + 1] == "SUCCEEDED"
  {
    var edges, id := EdgesOf(r.states, arrange), w[k];
    assert !IsViolation(r, edges, CommitStateMissing) && !IsViolation(r, edges, CommitShapeInvalid);
    EdgesAreTargets(r, arrange, id);
    var c := StateOf(r.states, id);
    assert !IsViolation(r, edges, StateIdDuplicate(id));
    SoleState(r.states, id);
    assert w[k + 1] in Targets(c);
  }

  lemma {:induction false} SoleState(states: seq<State>, id: Node)
    requires HasId(states, id) && forall i, j :: 0 <= i < j < |states| ==> !(states[i].id == id == states[j].id)
    ensures TargetsOf(states, id) == Targets(StateOf(states, id))
  {
    StateOfIsListed(states, id);
    var c := StateOf(states, id);
    var k :| 0 <= k < |states| && states[k] == c;
    forall s | s in states && s.id == id ensures s == c {
      var i :| 0 <= i < |states| && states[i] == s;
    }
  }

  lemma {:induction false} StateOfIsListed(states: seq<State>, id: Node)
    requires HasId(states, id)
    ensures StateOf(states, id) in states && StateOf(states, id).id == id
  {
    if Last(states).id != id {
      assert HasId(Init(states), id) by {
        var k :| 0 <= k < |states| && states[k].id == id;
        assert Init(states)[k].id == id;
      }
      StateOfIsListed(Init(states), id);
    }
  }

  /**
   * A recipe whose graph is trap free gets the same loop verdicts under every iteration order: a state is
   * reported exactly when it cannot finish.
   */
  lemma TrapFreeReportsAreExact(r: Recipe, arrange: (Node, set<Node>) -> seq<Node>, id: Node)
    requires TrapFree(EdgesOf(r.states, arrange)) && HasId(r.states, id)
    ensures IsViolation(r, EdgesOf(r.states, arrange), LoopNonTerminating(id)) <==>
            !Reaches(EdgesOf(r.states, arrange), id)
  {
    TrapFreePass(EdgesOf(r.states, arrange), Keys(r.states), map[], id);
  }

  // ----- one recipe, two verdicts -----

  ghost function SomeOrder(s: set<Node>): (r: seq<Node>)
    ensures Elements(r) == s && Distinct(r)
  {
    if s == {} then []
    else
      var x :| x in s;
      var rest := SomeOrder(s - {x});
      assert x !in Elements(rest);
      assert forall y :: y in [x] + rest <==> y == x || y in Elements(rest);
      [x] + rest
  }

  /** Some iteration order of all sets that visits the elements of `first` in this order. */
  ghost function Favouring(first: seq<Node>): (Node, set<Node>) -> seq<Node> {
    (n: Node, s: set<Node>) => if s == Elements(first) then first else SomeOrder(s)
  }

  // ----- exact reports -----

  /** A non-termination message is listed exactly for the states that cannot finish. */
  ghost predicate ReportsExact(r: Recipe, arrange: (Node, set<Node>) -> seq<Node>) {
    var edges := EdgesOf(r.states, arrange);
    forall id :: HasId(r.states, id) ==> (IsViolation(r, edges, LoopNonTerminating(id)) <==> !Reaches(edges, id))
  }

  ghost predicate AlwaysReportsExact(r: Recipe) {
    forall arrange: (Node, set<Node>) -> seq<Node> :: Arranges(arrange) ==> ReportsExact(r, arrange)
  }

  lemma ReportsExactIsPassExact(r: Recipe, arrange: (Node, set<Node>) -> seq<Node>)
    ensures ReportsExact(r, arrange) <==> PassIsExact(EdgesOf(r.states, arrange), Keys(r.states))
  {
    hide Flagged, Reaches;
    var edges := EdgesOf(r.states, arrange);
    if ReportsExact(r, arrange) {
      forall s | s in Keys(r.states) ensures s in Flagged(edges, Keys(r.states), map[]) <==> !Reaches(edges, s) {
        assert IsViolation(r, edges, LoopNonTerminating(s)) <==> s in Flagged(edges, Keys(r.states), map[]);
      }
    }
  }

  lemma ArrangedAlike(r: Recipe, a: (Node, set<Node>) -> seq<Node>, b: (Node, set<Node>) -> seq<Node>)
    requires Arranges(a) && Arranges(b)
    ensures Reordered(EdgesOf(r.states, a), EdgesOf(r.states, b))
  {
    hide Keys, TargetsOf;
    forall n, t | n in Keys(r.states) ensures t in a(n, TargetsOf(r.states, n)) <==> t in b(n, TargetsOf(r.states, n)) {
      var s := TargetsOf(r.states, n);
      assert t in a(n, s) <==> t in Elements(a(n, s));
      assert t in b(n, s) <==> t in Elements(b(n, s));
    }
  }

  lemma ArrangedOrders(r: Recipe, arrange: (Node, set<Node>) -> seq<Node>)
    requires Arranges(arrange)
    ensures SetOrders(EdgesOf(r.states, arrange))
  {
    hide Keys, TargetsOf;
  }

  /** Some iteration order of all sets yields this edge table. */
  ghost function Yielding(e: Edges): (Node, set<Node>) -> seq<Node> {
    (n: Node, s: set<Node>) => if n in e && s == Elements(e[n]) then e[n] else SomeOrder(s)
  }

  lemma YieldingArranges(e: Edges)
    requires SetOrders(e)
    ensures Arranges(Yielding(e))
  {
    forall n, s ensures Elements(Yielding(e)(n, s)) == s && Distinct(Yielding(e)(n, s)) {
      if n in e && s == Elements(e[n]) {
        assert Yielding(e)(n, s) == e[n];
      } else {
        assert Yielding(e)(n, s) == SomeOrder(s);
      }
    }
  }

  lemma YieldsTable(r: Recipe, arrange: (Node, set<Node>) -> seq<Node>, e: Edges)
    requires Arranges(arrange) && Reordered(EdgesOf(r.states, arrange), e)
    ensures Arranges(Yielding(e)) && EdgesOf(r.states, Yielding(e)) == e
  {
    hide Keys, TargetsOf;
    YieldingArranges(e);
    forall n | n in e ensures Elements(e[n]) == TargetsOf(r.states, n) {
      var s := TargetsOf(r.states, n);
      assert Elements(arrange(n, s)) == s;
      forall t ensures t in e[n] <==> t in s { assert t in arrange(n, s) <==> t in Elements(arrange(n, s)); }
    }
  }

  lemma KeysAreListing(r: Recipe, arrange: (Node, set<Node>) -> seq<Node>)
    ensures Listing(EdgesOf(r.states, arrange), Keys(r.states))
  {
    hide Keys;
  }

  /**
   * For a recipe with its own order of states, the reports are exact under every iteration order of its successor
   * sets if and only if no trap is open to that order of states.
   */
  lemma ReportsExactIffNoOpenTrap(r: Recipe, arrange: (Node, set<Node>) -> seq<Node>)
    requires Arranges(arrange)
    ensures AlwaysReportsExact(r) <==> NoOpenTrap(EdgesOf(r.states, arrange), Keys(r.states))
  {
    hide NoOpenTrap, EdgesOf, PassIsExact, Arranges, ReportsExact, Reordered, SetOrders, Listing;
    var edges, keys := EdgesOf(r.states, arrange), Keys(r.states);
    ArrangedOrders(r, arrange);
    KeysAreListing(r, arrange);
    ExactListingIffNoOpenTrap(edges, keys);
    if NoOpenTrap(edges, keys) {
      forall other: (Node, set<Node>) -> seq<Node> | Arranges(other) ensures ReportsExact(r, other) {
        ArrangedAlike(r, arrange, other);
        ReportsExactIsPassExact(r, other);
      }
    }
    if AlwaysReportsExact(r) {
      forall e | Reordered(edges, e) ensures PassIsExact(e, keys) {
        YieldsTable(r, arrange, e);
        ReportsExactIsPassExact(r, Yielding(e));
      }
    }
  }

  /** a goes on to b and to SUCCEEDED, b goes back to a. */
  const ROUND_TRIP := Recipe(
    [State("a", "tap", None, true, Some("b"), Some("SUCCEEDED"), false),
     State("b", "tap", None, true, Some("a"), None, false)], "a", None, {})

  lemma NoKeys()
    ensures Keys([]) == []
  {
  }

  lemma RoundTripTargets()
    ensures Keys(ROUND_TRIP.states) == ["a", "b"]
    ensures TargetsOf(ROUND_TRIP.states, "a") == {"b", "SUCCEEDED"} && TargetsOf(ROUND_TRIP.states, "b") == {"a"}
  {
    hide Keys, TargetsOf;
    var a, b := ROUND_TRIP.states[0], ROUND_TRIP.states[1];
    assert ROUND_TRIP.states == [a] + [b] && [a] == [] + [a];
    assert Targets(a) == {"b", "SUCCEEDED"} && Targets(b) == {"a"};
    KeysAppend([], a);
    KeysAppend([a], b);
    NoKeys();
    assert !HasId([a], "b");
    forall id | id == "a" || id == "b"
      ensures TargetsOf(ROUND_TRIP.states, id) == (if id == "a" then Targets(a) else Targets(b))
    {
      NoStateNoTargets([], id);
      TargetsAppend([], a, id);
      TargetsAppend([a], b, id);
    }
  }

  lemma RoundTripEdges(order: seq<Node>)
    requires Elements(order) == {"b", "SUCCEEDED"} && Distinct(order)
    ensures Arranges(Favouring(order))
    ensures EdgesOf(ROUND_TRIP.states, Favouring(order)) == map["a" := order, "b" := ["a"]]
  {
    hide Keys, TargetsOf;
    RoundTripTargets();
    var back := SomeOrder({"a"});
    assert back == ["a"] by { assert {"a"} - {"a"} == {}; assert SomeOrder({}) == []; }
    assert "SUCCEEDED" in Elements(order) && "SUCCEEDED" !in {"a"};
  }

  /**
   * One recipe, two iteration orders, two verdicts: state b can finish, and it is reported only under one of them.
   */
  lemma VerdictDependsOnSetOrder()
    ensures Arranges(Favouring(["b", "SUCCEEDED"])) && Arranges(Favouring(["SUCCEEDED", "b"]))
    ensures Reaches(EdgesOf(ROUND_TRIP.states, Favouring(["b", "SUCCEEDED"])), "b")
    ensures IsViolation(ROUND_TRIP, EdgesOf(ROUND_TRIP.states, Favouring(["b", "SUCCEEDED"])), LoopNonTerminating("b"))
    ensures forall id ::
              !IsViolation(ROUND_TRIP, EdgesOf(ROUND_TRIP.states, Favouring(["SUCCEEDED", "b"])),
                           LoopNonTerminating(id))
  {
    hide Keys, TargetsOf, EdgesOf, Flagged, Arranges, Favouring, Reaches;
    assert Elements(["b", "SUCCEEDED"]) == {"b", "SUCCEEDED"} == Elements(["SUCCEEDED", "b"]);
    RoundTripEdges(["b", "SUCCEEDED"]);
    RoundTripEdges(["SUCCEEDED", "b"]);
    RoundTripTargets();
    SmallestTrap();
  }
}
