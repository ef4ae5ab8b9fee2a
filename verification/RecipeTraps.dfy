/**
 * The loop pass shares one memo between all states (scripts/validate-recipe-contract.py, lines 256-261).
 * A False stored while an ancestor is being visited can be wrong. This module says exactly when:
 * the pass is exact for every state listing and every successor order if and only if the graph has no trap.
 */
module RecipeTraps {
  import opened Common
  import opened RecipeGraph

  /** The states the pass would report, in order. */
  function Flagged(edges: Edges, states: seq<Node>, memo: Memo): seq<Node> {
    if states == [] then []
    else
      var (found, m) := Search(edges, states[0], memo, {});
      (if found then [] else [states[0]]) + Flagged(edges, states[1..], m)
  }

  ghost predicate PassIsExact(edges: Edges, states: seq<Node>) {
    forall s :: s in states ==> (s in Flagged(edges, states, map[]) <==> !Reaches(edges, s))
  }

  /** A simple path p of states that leads to y. */
  ghost predicate Approach(edges: Edges, p: seq<Node>, y: Node) {
    Walk(edges, p + [y]) && Distinct(p) && y !in p && forall k :: 0 <= k < |p| ==> p[k] !in TERMINALS
  }

  /** y can finish, but only through the states that the search is in the middle of when it first meets y. */
  ghost predicate Trap(edges: Edges, p: seq<Node>, y: Node) {
    p != [] && y !in TERMINALS && Approach(edges, p, y) && Reaches(edges, y) && !ReachesAvoiding(edges, y, Elements(p))
  }

  ghost predicate TrapFree(edges: Edges) {
    forall p, y :: !Trap(edges, p, y)
  }

  // ----- the direction acceptance relies on: no report, no dead state -----

  lemma {:induction false} UnflaggedReaches(edges: Edges, states: seq<Node>, memo: Memo, s: Node)
    requires TrueAvoiding(edges, memo, {}) && s in states && s !in Flagged(edges, states, memo)
    ensures Reaches(edges, s)
  {
    SearchTrue(edges, states[0], memo, {}, {});
    var (found, m) := Search(edges, states[0], memo, {});
    if s == states[0] && found {
      assert Reaches(edges, s);
    } else {
      assert s in states[1..];
      UnflaggedReaches(edges, states[1..], m, s);
    }
  }

  // ----- without traps every answer is exact -----

  ghost predicate MemoExact(edges: Edges, memo: Memo) {
    forall k :: k in memo ==> (memo[k] <==> Reaches(edges, k))
  }

  /** p is the chain of states being visited and n is next. */
  ghost predicate Visiting(edges: Edges, p: seq<Node>, n: Node) {
    (p == [] || Walk(edges, p + [n])) && Distinct(p) && forall k :: 0 <= k < |p| ==> p[k] !in TERMINALS
  }

  lemma AppendVisiting(edges: Edges, p: seq<Node>, n: Node, t: Node)
    requires Visiting(edges, p, n) && n !in p && n in edges && n !in TERMINALS && t in edges[n]
    ensures Visiting(edges, p + [n], t) && Elements(p + [n]) == Elements(p) + {n}
  {
    var w := p + [n] + [t];
    forall k | 0 <= k < |w| - 1 ensures w[k] in edges && w[k + 1] in edges[w[k]] {
      if k < |p| {
        assert (p + [n])[k] == w[k] && (p + [n])[k + 1] == w[k + 1];
      }
    }
  }

  lemma {:induction false} SearchExact(edges: Edges, n: Node, memo: Memo, p: seq<Node>)
    requires TrapFree(edges) && MemoExact(edges, memo) && Visiting(edges, p, n)
    requires forall v :: v in p ==> v in edges && v !in memo
    ensures var (found, m) := Search(edges, n, memo, Elements(p));
            MemoExact(edges, m) && (found <==> n !in p && Reaches(edges, n))
    decreases edges.Keys - Elements(p), 0
  {
    hide TrapFree, ReachesAvoiding, Visiting;
    if n in TERMINALS {
      TerminalReaches(edges, n, {});
      VisitingIsNotTerminal(edges, p, n);
    } else if n in memo {
    } else if n !in edges {
      if Reaches(edges, n) { var t := FirstStep(edges, n, {}); }
    } else if n !in p {
      assert Elements(p + [n]) == Elements(p) + {n};
      forall t | t in edges[n] ensures Visiting(edges, p + [n], t) { AppendVisiting(edges, p, n, t); }
      SearchAnyExact(edges, edges[n], memo, p + [n]);
      var (found, m) := SearchAny(edges, edges[n], memo, Elements(p + [n]));
      if found {
        var t :| t in edges[n] && Reaches(edges, t);
        StepReaches(edges, n, t, {});
      } else if Reaches(edges, n) {
        AwayFromPath(edges, p, n);
        var t := FirstStep(edges, n, Elements(p));
        AvoidingLess(edges, t, Elements(p), {});
      }
    }
  }

  lemma VisitingIsNotTerminal(edges: Edges, p: seq<Node>, n: Node)
    requires Visiting(edges, p, n) && n in TERMINALS
    ensures n !in p
  {
  }

  lemma AwayFromPath(edges: Edges, p: seq<Node>, n: Node)
    requires TrapFree(edges) && Visiting(edges, p, n) && n !in p && n !in TERMINALS && Reaches(edges, n)
    ensures ReachesAvoiding(edges, n, Elements(p))
  {
    if p == [] {
      assert Elements(p) == {};
    } else {
      assert !Trap(edges, p, n);
    }
  }

  lemma {:induction false} SearchAnyExact(edges: Edges, targets: seq<Node>, memo: Memo, p: seq<Node>)
    requires TrapFree(edges) && MemoExact(edges, memo) && forall t :: t in targets ==> Visiting(edges, p, t)
    requires forall v :: v in p ==> v in edges && v !in memo
    ensures var (found, m) := SearchAny(edges, targets, memo, Elements(p));
            && MemoExact(edges, m)
            && (found ==> exists t :: t in targets && Reaches(edges, t))
            && (!found ==> forall t :: t in targets ==> t in p || !Reaches(edges, t))
    decreases edges.Keys - Elements(p), |targets| + 1
  {
    hide TrapFree, ReachesAvoiding, Visiting;
    if targets != [] {
      SearchExact(edges, targets[0], memo, p);
      SearchKeeps(edges, targets[0], memo, Elements(p));
      var (found, m) := Search(edges, targets[0], memo, Elements(p));
      if found {
        assert targets[0] in targets;
      } else {
        SearchAnyExact(edges, targets[1..], m, p);
        forall t | t in targets ensures t == targets[0] || t in targets[1..] {}
      }
    }
  }

  lemma {:induction false} TrapFreePass(edges: Edges, states: seq<Node>, memo: Memo, s: Node)
    requires TrapFree(edges) && MemoExact(edges, memo) && s in states
    ensures s in Flagged(edges, states, memo) <==> !Reaches(edges, s)
  {
    hide TrapFree, ReachesAvoiding;
    assert Visiting(edges, [], states[0]);
    assert Elements<Node>([]) == {};
    SearchExact(edges, states[0], memo, []);
    var (found, m) := Search(edges, states[0], memo, {});
    if s in states[1..] {
      TrapFreePass(edges, states[1..], m, s);
    } else {
      FlaggedAreListed(edges, states[1..], m);
    }
  }

  lemma {:induction false} FlaggedAreListed(edges: Edges, states: seq<Node>, memo: Memo)
    ensures forall s :: s in Flagged(edges, states, memo) ==> s in states
  {
    if states != [] {
      FlaggedAreListed(edges, states[1..], Search(edges, states[0], memo, {}).1);
    }
  }

  // ----- a trap makes some successor order give a wrong verdict -----

  /** The same nodes with the same successors. */
  ghost predicate SameGraph(a: Edges, b: Edges) {
    a.Keys == b.Keys && forall n :: n in a ==> forall t :: t in a[n] <==> t in b[n]
  }

  /** The orders in which sets are iterated: no successor is listed twice. */
  ghost predicate SetOrders(e: Edges) {
    forall n :: n in e ==> Distinct(e[n])
  }

  /** The same graph under another iteration order of its successor sets. */
  ghost predicate Reordered(a: Edges, b: Edges) {
    SameGraph(a, b) && SetOrders(b)
  }

  lemma SameWalks(a: Edges, b: Edges, w: seq<Node>)
    requires SameGraph(a, b)
    ensures Walk(a, w) <==> Walk(b, w)
  {
  }

  lemma SameReach(a: Edges, b: Edges, n: Node, avoided: set<Node>)
    requires SameGraph(a, b)
    ensures ReachesAvoiding(a, n, avoided) <==> ReachesAvoiding(b, n, avoided)
  {
    if w :| WalkToTerminal(a, n, w, avoided) { SameWalks(a, b, w); assert WalkToTerminal(b, n, w, avoided); }
    if w :| WalkToTerminal(b, n, w, avoided) { SameWalks(a, b, w); assert WalkToTerminal(a, n, w, avoided); }
  }

  lemma SameTraps(a: Edges, b: Edges)
    requires SameGraph(a, b)
    ensures TrapFree(a) <==> TrapFree(b)
  {
    forall p, y ensures Trap(a, p, y) <==> Trap(b, p, y) {
      SameWalks(a, b, p + [y]);
      SameReach(a, b, y, {});
      SameReach(a, b, y, Elements(p));
    }
  }

  function Without(s: seq<Node>, x: Node): (r: seq<Node>)
    ensures forall t :: t in r <==> t in s && t != x
    ensures Distinct(s) ==> Distinct(r)
  {
    if s == [] then []
    else
      var rest := Without(s[1..], x);
      assert Distinct(s) ==> Distinct(s[1..]) && s[0] !in s[1..];
      if s[0] == x then rest else [s[0]] + rest
  }

  /** The order in which every state of p iterates its successor on p + [y] first. */
  ghost function Eager(edges: Edges, p: seq<Node>, y: Node): Edges {
    map n | n in edges :: if n in p then var t := NextOn(p + [y], n); [t] + Without(edges[n], t) else edges[n]
  }

  ghost function NextOn(w: seq<Node>, n: Node): Node
    requires w != [] && n in Init(w)
  {
    var k :| 0 <= k < |w| - 1 && w[k] == n;
    w[k + 1]
  }

  lemma NextOnAt(w: seq<Node>, k: nat)
    requires Distinct(w) && k < |w| - 1
    ensures w[k] in Init(w) && NextOn(w, w[k]) == w[k + 1]
  {
    assert Init(w)[k] == w[k];
  }

  lemma EagerIsSameGraph(edges: Edges, p: seq<Node>, y: Node)
    requires Approach(edges, p, y)
    ensures SameGraph(edges, Eager(edges, p, y)) && (SetOrders(edges) ==> SetOrders(Eager(edges, p, y)))
  {
    var w := p + [y];
    assert Init(w) == p;
    forall n | n in edges && n in p ensures NextOn(w, n) in edges[n] {
      var k :| 0 <= k < |p| && p[k] == n;
      NextOnAt(w, k);
      assert w[k + 1] in edges[w[k]];
    }
  }

  lemma TrapBottom(edges: Edges, p: seq<Node>, y: Node)
    requires Trap(edges, p, y)
    ensures Refuted(Search(Eager(edges, p, y), y, map[], Elements(p)).1, y)
  {
    hide ReachesAvoiding, Eager;
    var e := Eager(edges, p, y);
    EagerIsSameGraph(edges, p, y);
    SameReach(edges, e, y, Elements(p));
    SameReach(edges, e, y, {});
    FreshSearchIsExact(e, y, Elements(p));
    var t := FirstStep(e, y, {});
  }

  /** A search that tries `next` first ends with every False that `next` left behind. */
  lemma FirstChildDecides(e: Edges, n: Node, next: Node, visiting: set<Node>, y: Node)
    requires n in e && e[n] != [] && e[n][0] == next && n !in TERMINALS && n !in visiting && n != y
    requires Refuted(Search(e, next, map[], visiting + {n}).1, y)
    ensures Refuted(Search(e, n, map[], visiting).1, y)
  {
    SearchAnyKeeps(e, e[n][1..], Search(e, next, map[], visiting + {n}).1, visiting + {n});
  }

  /** Under the eager order the search walks straight down p and stores False for y. */
  lemma {:induction false} TrapSprings(edges: Edges, p: seq<Node>, y: Node, k: nat)
    requires Trap(edges, p, y) && k <= |p|
    ensures Refuted(Search(Eager(edges, p, y), (p + [y])[k], map[], Elements(p[..k])).1, y)
    decreases |p| - k
  {
    hide Eager, Trap, Search, Refuted;
    if k == |p| {
      assert p[..k] == p;
      TrapBottom(edges, p, y);
    } else {
      TrapStep(edges, p, y, k);
      TrapSprings(edges, p, y, k + 1);
      assert p[..k + 1] == p[..k] + [p[k]];
      assert Elements(p[..k + 1]) == Elements(p[..k]) + {p[k]};
      FirstChildDecides(Eager(edges, p, y), p[k], (p + [y])[k + 1], Elements(p[..k]), y);
    }
  }

  lemma TrapStep(edges: Edges, p: seq<Node>, y: Node, k: nat)
    requires Trap(edges, p, y) && k < |p|
    ensures var e := Eager(edges, p, y); var n := p[k];
            && n in e && e[n] != [] && e[n][0] == (p + [y])[k + 1]
            && n !in TERMINALS && n !in Elements(p[..k]) && n != y
  {
    var w := p + [y];
    assert Init(w) == p;
    assert w[k] in edges;
    NextOnAt(w, k);
  }

  /** With a trap, a listing that starts at its entrance reports a state that can finish. */
  lemma TrapFailsPass(edges: Edges, p: seq<Node>, y: Node, states: seq<Node>)
    requires Trap(edges, p, y) && states != [] && states[0] == p[0] && y in states
    ensures !PassIsExact(Eager(edges, p, y), states)
  {
    hide ReachesAvoiding;
    var e := Eager(edges, p, y);
    TrapSprings(edges, p, y, 0);
    assert p[..0] == [] && Elements<Node>([]) == {};
    var m := Search(e, p[0], map[], {}).1;
    assert y in states[1..] by { assert y != p[0]; }
    RefutedIsFlagged(e, states[1..], m, y);
    EagerIsSameGraph(edges, p, y);
    SameReach(edges, e, y, {});
  }

  lemma {:induction false} RefutedIsFlagged(edges: Edges, states: seq<Node>, memo: Memo, y: Node)
    requires Refuted(memo, y) && y !in TERMINALS && y in states
    ensures y in Flagged(edges, states, memo)
  {
    if states[0] != y {
      SearchKeeps(edges, states[0], memo, {});
      RefutedIsFlagged(edges, states[1..], Search(edges, states[0], memo, {}).1, y);
    }
  }

  /** A listing of the states of a recipe: each key of the edge table once. */
  ghost predicate Listing(edges: Edges, states: seq<Node>) {
    Distinct(states) && Elements(states) == edges.Keys
  }

  lemma {:induction false} SomeListing(s: set<Node>) returns (r: seq<Node>)
    ensures Distinct(r) && Elements(r) == s
  {
    if s == {} {
      r := [];
    } else {
      var x :| x in s;
      var rest := SomeListing(s - {x});
      r := [x] + rest;
      assert x !in Elements(rest);
      assert Elements(r) == {x} + Elements(rest);
    }
  }

  ghost predicate AlwaysExact(edges: Edges) {
    forall e, states :: Reordered(edges, e) && Listing(edges, states) ==> PassIsExact(e, states)
  }

  lemma TrapFreeIsAlwaysExact(edges: Edges)
    requires TrapFree(edges)
    ensures AlwaysExact(edges)
  {
    forall e, states | Reordered(edges, e) && Listing(edges, states) ensures PassIsExact(e, states) {
      SameTraps(edges, e);
      forall s | s in states ensures s in Flagged(e, states, map[]) <==> !Reaches(e, s) {
        TrapFreePass(e, states, map[], s);
      }
    }
  }

  lemma ListedAfter(x: Node, rest: seq<Node>)
    requires Distinct(rest) && x !in Elements(rest)
    ensures Distinct([x] + rest) && Elements([x] + rest) == {x} + Elements(rest)
  {
  }

  /** Some listing starts at the entrance of the trap. */
  lemma ListingFrom(edges: Edges, p: seq<Node>, y: Node) returns (states: seq<Node>)
    requires Trap(edges, p, y)
    ensures Listing(edges, states) && states != [] && states[0] == p[0] && y in states
  {
    hide Distinct, ReachesAvoiding;
    assert (p + [y])[0] in edges;
    var t := FirstStep(edges, y, {});
    var rest := SomeListing(edges.Keys - {p[0]});
    ListedAfter(p[0], rest);
    states := [p[0]] + rest;
    assert y in Elements(states);
  }

  lemma TrapIsNotAlwaysExact(edges: Edges, p: seq<Node>, y: Node)
    requires Trap(edges, p, y) && SetOrders(edges)
    ensures !AlwaysExact(edges)
  {
    hide Trap, Listing, PassIsExact, SameGraph, SetOrders, Eager;
    var states := ListingFrom(edges, p, y);
    TrapIsApproached(edges, p, y);
    EagerIsSameGraph(edges, p, y);
    TrapFailsPass(edges, p, y, states);
  }

  lemma TrapIsApproached(edges: Edges, p: seq<Node>, y: Node)
    requires Trap(edges, p, y)
    ensures Approach(edges, p, y) && p != []
  {
  }

  /** The shared memo gives exact answers for every listing and every successor order iff there is no trap. */
  lemma SharedMemoIsExactIffTrapFree(edges: Edges)
    requires SetOrders(edges)
    ensures AlwaysExact(edges) <==> TrapFree(edges)
  {
    if TrapFree(edges) {
      TrapFreeIsAlwaysExact(edges);
    } else {
      var p, y :| Trap(edges, p, y);
      TrapIsNotAlwaysExact(edges, p, y);
    }
  }

  // ----- graphs without cycles have no traps -----

  ghost predicate OnCycle(edges: Edges, n: Node) {
    exists w :: ClosedWalk(edges, n, w)
  }

  ghost predicate ClosedWalk(edges: Edges, n: Node, w: seq<Node>) {
    Walk(edges, w) && |w| >= 2 && w[0] == n && Last(w) == n
  }

  lemma AcyclicIsTrapFree(edges: Edges)
    requires forall n :: !OnCycle(edges, n)
    ensures TrapFree(edges)
  {
    if p, y :| Trap(edges, p, y) {
      var w :| WalkToTerminal(edges, y, w, {});
      assert !WalkToTerminal(edges, y, w, Elements(p));
      var k :| 0 <= k < |w| && w[k] in Elements(p);
      var i :| 0 <= i < |p| && p[i] == w[k];
      var down := (p + [y])[i..];
      var loop := down + w[1..k + 1];
      assert k > 0;
      forall j | 0 <= j < |loop| - 1 ensures loop[j] in edges && loop[j + 1] in edges[loop[j]] {
        if j < |down| - 1 {
          assert loop[j] == (p + [y])[i + j] && loop[j + 1] == (p + [y])[i + j + 1];
        } else {
          assert loop[j] == w[j - |down| + 1] && loop[j + 1] == w[j - |down| + 2];
        }
      }
      assert ClosedWalk(edges, p[i], loop);
      assert OnCycle(edges, p[i]);
    }
  }

  // ----- the smallest trap -----

  const BAD_ORDER: Edges := map["a" := ["b", "SUCCEEDED"], "b" := ["a"]]
  const GOOD_ORDER: Edges := map["a" := ["SUCCEEDED", "b"], "b" := ["a"]]

  lemma TwoOrders()
    ensures Reordered(BAD_ORDER, GOOD_ORDER) && Reordered(GOOD_ORDER, BAD_ORDER)
  {
    hide Search, Flagged;
  }

  lemma BothFinish()
    ensures Reaches(BAD_ORDER, "a") && Reaches(BAD_ORDER, "b")
  {
    hide Search, Flagged;
    assert WalkToTerminal(BAD_ORDER, "a", ["a", "SUCCEEDED"], {});
    assert WalkToTerminal(BAD_ORDER, "b", ["b", "a", "SUCCEEDED"], {});
  }

  /** a visits b first; b finds a being visited and is written down as False. */
  lemma BadOrderFlags()
    ensures Flagged(BAD_ORDER, ["a", "b"], map[]) == ["b"]
  {
    var e := BAD_ORDER;
    assert Search(e, "a", map[], {"a", "b"}) == (false, map[]);
    assert SearchAny(e, [], map[], {"a", "b"}) == (false, map[]);
    assert ["a"][1..] == [];
    assert SearchAny(e, ["a"], map[], {"a", "b"}) == (false, map[]);
    assert {"a"} + {"b"} == {"a", "b"} && {} + {"a"} == {"a"};
    assert Search(e, "b", map[], {"a"}) == (false, map["b" := false]);
    assert ["b", "SUCCEEDED"][1..] == ["SUCCEEDED"];
    assert Search(e, "SUCCEEDED", map["b" := false], {"a"}) == (true, map["b" := false]);
    assert SearchAny(e, ["SUCCEEDED"], map["b" := false], {"a"}) == (true, map["b" := false]);
    assert SearchAny(e, ["b", "SUCCEEDED"], map[], {"a"}) == (true, map["b" := false]);
    assert Search(e, "a", map[], {}) == (true, map["b" := false, "a" := true]);
    assert ["a", "b"][1..] == ["b"] && ["b"][1..] == [];
    assert Flagged(e, ["b"], map["b" := false, "a" := true]) == ["b"] + Flagged(e, [], map["b" := false, "a" := true]);
  }

  lemma GoodOrderFlagsNone()
    ensures Flagged(GOOD_ORDER, ["a", "b"], map[]) == []
  {
    var g, m := GOOD_ORDER, map["a" := true];
    assert ["a"][1..] == [] && ["a", "b"][1..] == ["b"] && ["b"][1..] == [];
    assert Search(g, "SUCCEEDED", map[], {"a"}) == (true, map[]);
    assert {} + {"a"} == {"a"} && {} + {"b"} == {"b"};
    assert SearchAny(g, ["SUCCEEDED", "b"], map[], {"a"}) == (true, map[]);
    assert Search(g, "a", map[], {}) == (true, m);
    assert Search(g, "a", m, {"b"}) == (true, m);
    assert SearchAny(g, ["a"], m, {"b"}) == (true, m);
    assert Search(g, "b", m, {}) == (true, m["b" := true]);
    assert Flagged(g, ["b"], m) == [] + Flagged(g, [], m["b" := true]);
  }

  /** Both states can finish, and b is flagged under one of the orders. */
  lemma SmallestTrap()
    ensures Reordered(BAD_ORDER, GOOD_ORDER) && Reordered(GOOD_ORDER, BAD_ORDER)
    ensures Reaches(BAD_ORDER, "a") && Reaches(BAD_ORDER, "b")
    ensures Flagged(BAD_ORDER, ["a", "b"], map[]) == ["b"]
    ensures Flagged(GOOD_ORDER, ["a", "b"], map[]) == []
  {
    hide *;
    TwoOrders();
    BothFinish();
    BadOrderFlags();
    GoodOrderFlagsNone();
  }
}
