/** Walks of a recipe graph and the memoised terminal search (scripts/validate-recipe-contract.py). */
module RecipeGraph {
  import opened Common

  type Node = string

  /** Successor lists: the order of a list is the order in which Python iterates the successor set. */
  type Edges = map<Node, seq<Node>>

  const TERMINALS := {"SUCCEEDED", "FAILED", "WAITING_USER"}

  ghost predicate Walk(edges: Edges, w: seq<Node>) {
    w != [] && forall k :: 0 <= k < |w| - 1 ==> w[k] in edges && w[k + 1] in edges[w[k]]
  }

  ghost predicate WalkToTerminal(edges: Edges, n: Node, w: seq<Node>, avoided: set<Node>) {
    Walk(edges, w) && w[0] == n && Last(w) in TERMINALS && forall k :: 0 <= k < |w| ==> w[k] !in avoided
  }

  ghost predicate ReachesAvoiding(edges: Edges, n: Node, avoided: set<Node>) {
    exists w :: WalkToTerminal(edges, n, w, avoided)
  }

  ghost predicate Reaches(edges: Edges, n: Node) {
    ReachesAvoiding(edges, n, {})
  }

  lemma StepReaches(edges: Edges, n: Node, t: Node, avoided: set<Node>)
    requires n in edges && t in edges[n] && n !in avoided && ReachesAvoiding(edges, t, avoided)
    ensures ReachesAvoiding(edges, n, avoided)
  {
    var w :| WalkToTerminal(edges, t, w, avoided);
    assert WalkToTerminal(edges, n, [n] + w, avoided);
  }

  lemma TerminalReaches(edges: Edges, n: Node, avoided: set<Node>)
    requires n in TERMINALS && n !in avoided
    ensures ReachesAvoiding(edges, n, avoided)
  {
    assert WalkToTerminal(edges, n, [n], avoided);
  }

  lemma AvoidingLess(edges: Edges, n: Node, more: set<Node>, fewer: set<Node>)
    requires fewer <= more && ReachesAvoiding(edges, n, more)
    ensures ReachesAvoiding(edges, n, fewer)
  {
    var w :| WalkToTerminal(edges, n, w, more);
    assert WalkToTerminal(edges, n, w, fewer);
  }

  lemma {:induction false} LastVisit(edges: Edges, n: Node, w: seq<Node>, avoided: set<Node>) returns (v: seq<Node>)
    requires WalkToTerminal(edges, n, w, avoided)
    ensures WalkToTerminal(edges, n, v, avoided) && forall k :: 0 < k < |v| ==> v[k] != n
  {
    if k :| 0 < k < |w| && w[k] == n {
      assert WalkToTerminal(edges, n, w[k..], avoided);
      v := LastVisit(edges, n, w[k..], avoided);
    } else {
      v := w;
    }
  }

  /** A first step towards a terminal that does not come back. */
  lemma FirstStep(edges: Edges, n: Node, avoided: set<Node>) returns (t: Node)
    requires n !in TERMINALS && ReachesAvoiding(edges, n, avoided)
    ensures n in edges && t in edges[n] && t !in avoided && t != n
    ensures ReachesAvoiding(edges, t, avoided)
  {
    var w :| WalkToTerminal(edges, n, w, avoided);
    var v := LastVisit(edges, n, w, avoided);
    t := v[1];
    assert WalkToTerminal(edges, t, v[1..], avoided);
  }

  // ----- can_reach_terminal as a function of its memo and its visiting set -----

  type Memo = map<Node, bool>

  function Search(edges: Edges, n: Node, memo: Memo, visiting: set<Node>): (bool, Memo)
    decreases edges.Keys - visiting, 0
  {
    if n in TERMINALS then (true, memo)
    else if n in memo then (memo[n], memo)
    else if n !in edges then (false, memo[n := false])
    else if n in visiting then (false, memo)
    else
      var (found, m) := SearchAny(edges, edges[n], memo, visiting + {n});
      (found, m[n := found])
  }

  function SearchAny(edges: Edges, targets: seq<Node>, memo: Memo, visiting: set<Node>): (bool, Memo)
    decreases edges.Keys - visiting, |targets| + 1
  {
    if targets == [] then (false, memo)
    else
      var (found, m) := Search(edges, targets[0], memo, visiting);
      if found then (true, m) else SearchAny(edges, targets[1..], m, visiting)
  }

  // ----- every True is justified, whatever the memo was filled with before -----

  ghost predicate TrueAvoiding(edges: Edges, memo: Memo, avoided: set<Node>) {
    forall k :: k in memo && memo[k] ==> ReachesAvoiding(edges, k, avoided)
  }

  lemma {:induction false} SearchTrue(edges: Edges, n: Node, memo: Memo, visiting: set<Node>, avoided: set<Node>)
    requires avoided <= visiting && avoided !! TERMINALS && TrueAvoiding(edges, memo, avoided)
    ensures var (found, m) := Search(edges, n, memo, visiting);
            TrueAvoiding(edges, m, avoided) && (found ==> ReachesAvoiding(edges, n, avoided))
    decreases edges.Keys - visiting, 0
  {
    hide ReachesAvoiding;
    if n in TERMINALS {
      TerminalReaches(edges, n, avoided);
    } else if n !in memo && n in edges && n !in visiting {
      var t := SearchAnyTrue(edges, edges[n], memo, visiting + {n}, avoided);
      if SearchAny(edges, edges[n], memo, visiting + {n}).0 { StepReaches(edges, n, t, avoided); }
    }
  }

  lemma {:induction false} SearchAnyTrue(edges: Edges, targets: seq<Node>, memo: Memo, visiting: set<Node>,
                                         avoided: set<Node>)
    returns (t: Node)
    requires avoided <= visiting && avoided !! TERMINALS && TrueAvoiding(edges, memo, avoided)
    ensures var (found, m) := SearchAny(edges, targets, memo, visiting);
            TrueAvoiding(edges, m, avoided) && (found ==> t in targets && ReachesAvoiding(edges, t, avoided))
    decreases edges.Keys - visiting, |targets| + 1
  {
    hide ReachesAvoiding;
    t := "";
    if targets != [] {
      SearchTrue(edges, targets[0], memo, visiting, avoided);
      var (found, m) := Search(edges, targets[0], memo, visiting);
      if found { t := targets[0]; } else { t := SearchAnyTrue(edges, targets[1..], m, visiting, avoided); }
    }
  }

  // ----- a fresh memo gives the exact answer -----

  ghost predicate Refuted(memo: Memo, n: Node) {
    n in memo && !memo[n]
  }

  /** Each False has only successors that are False as well, or still being visited. */
  ghost predicate FalseClosed(edges: Edges, memo: Memo, visiting: set<Node>) {
    forall k {:trigger Refuted(memo, k)} :: Refuted(memo, k) ==>
      k !in TERMINALS &&
      (k in edges ==> forall s :: s in edges[k] ==> s !in TERMINALS && (s in visiting || Refuted(memo, s)))
  }

  lemma {:induction false} SearchFalse(edges: Edges, n: Node, memo: Memo, visiting: set<Node>)
    requires FalseClosed(edges, memo, visiting) && !Search(edges, n, memo, visiting).0
    ensures var m := Search(edges, n, memo, visiting).1;
            FalseClosed(edges, m, visiting) && n !in TERMINALS && (n in visiting || Refuted(m, n))
    decreases edges.Keys - visiting, 0
  {
    if n in memo {
      assert Refuted(memo, n);
    } else if n !in edges {
      var m := memo[n := false];
      forall k | Refuted(m, k) && k != n ensures Refuted(memo, k) {}
      assert forall k :: Refuted(memo, k) ==> Refuted(m, k);
    } else if n !in visiting {
      SearchAnyFalse(edges, edges[n], memo, visiting + {n});
      var m := SearchAny(edges, edges[n], memo, visiting + {n}).1;
      FalseEntry(edges, m, visiting, n);
    }
  }

  lemma FalseEntry(edges: Edges, m: Memo, visiting: set<Node>, n: Node)
    requires FalseClosed(edges, m, visiting + {n}) && n in edges && n !in TERMINALS
    requires forall s :: s in edges[n] ==> s !in TERMINALS && (s in visiting + {n} || Refuted(m, s))
    ensures FalseClosed(edges, m[n := false], visiting)
  {
    var m' := m[n := false];
    assert Refuted(m', n);
    forall k | Refuted(m', k) && k != n ensures Refuted(m, k) {}
    assert forall k :: Refuted(m, k) ==> Refuted(m', k);
  }

  lemma {:induction false} SearchAnyFalse(edges: Edges, targets: seq<Node>, memo: Memo, visiting: set<Node>)
    requires FalseClosed(edges, memo, visiting) && !SearchAny(edges, targets, memo, visiting).0
    ensures var m := SearchAny(edges, targets, memo, visiting).1;
            FalseClosed(edges, m, visiting) && forall t :: t in targets ==>
              t !in TERMINALS && (t in visiting || Refuted(m, t))
    decreases edges.Keys - visiting, |targets| + 1
  {
    hide FalseClosed;
    if targets != [] {
      SearchFalse(edges, targets[0], memo, visiting);
      var m := Search(edges, targets[0], memo, visiting).1;
      SearchAnyFalse(edges, targets[1..], m, visiting);
      SearchAnyKeeps(edges, targets[1..], m, visiting);
    }
  }

  /** Memo entries are written once; a node that is being visited gets none. */
  lemma {:induction false} SearchKeeps(edges: Edges, n: Node, memo: Memo, visiting: set<Node>)
    ensures var m := Search(edges, n, memo, visiting).1;
            && (forall k :: k in memo ==> k in m && m[k] == memo[k])
            && (forall v :: v in visiting && v in edges && v !in memo ==> v !in m)
    decreases edges.Keys - visiting, 0
  {
    if n !in TERMINALS && n !in memo && n in edges && n !in visiting {
      SearchAnyKeeps(edges, edges[n], memo, visiting + {n});
    }
  }

  lemma {:induction false} SearchAnyKeeps(edges: Edges, targets: seq<Node>, memo: Memo, visiting: set<Node>)
    ensures var m := SearchAny(edges, targets, memo, visiting).1;
            && (forall k :: k in memo ==> k in m && m[k] == memo[k])
            && (forall v :: v in visiting && v in edges && v !in memo ==> v !in m)
    decreases edges.Keys - visiting, |targets| + 1
  {
    if targets != [] {
      SearchKeeps(edges, targets[0], memo, visiting);
      var m := Search(edges, targets[0], memo, visiting).1;
      SearchAnyKeeps(edges, targets[1..], m, visiting);
    }
  }

  lemma {:induction false} RefutedHasNoWalk(edges: Edges, memo: Memo, visiting: set<Node>, n: Node, w: seq<Node>)
    requires FalseClosed(edges, memo, visiting) && Refuted(memo, n)
    requires WalkToTerminal(edges, n, w, visiting)
    ensures false
    decreases |w|
  {
    assert w[1] in edges[w[0]];
    assert WalkToTerminal(edges, w[1], w[1..], visiting);
    RefutedHasNoWalk(edges, memo, visiting, w[1], w[1..]);
  }

  /** Started with an empty memo, the search says exactly whether a terminal can be reached around `visiting`. */
  lemma FreshSearchIsExact(edges: Edges, n: Node, visiting: set<Node>)
    requires visiting !! TERMINALS && n !in visiting
    ensures Search(edges, n, map[], visiting).0 <==> ReachesAvoiding(edges, n, visiting)
  {
    SearchTrue(edges, n, map[], visiting, visiting);
    if !Search(edges, n, map[], visiting).0 {
      SearchFalse(edges, n, map[], visiting);
      var m := Search(edges, n, map[], visiting).1;
      if w :| WalkToTerminal(edges, n, w, visiting) {
        RefutedHasNoWalk(edges, m, visiting, n, w);
      }
    }
  }
}
