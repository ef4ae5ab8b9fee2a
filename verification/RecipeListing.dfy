/**
 * The loop pass on one listing of the states (scripts/validate-recipe-contract.py, lines 256-261): it is exact for
 * every successor order if and only if no trap is open to it, that is, no trap that starts at a listed state while
 * the states listed before it can finish without touching the trap.
 */
module RecipeListing {
  import opened Common
  import opened RecipeGraph
  import opened RecipeTraps

  /** What an earlier state must leave alone for the trap to work. */
  ghost function Touched(p: seq<Node>, y: Node): set<Node> {
    Elements(p) + {y}
  }

  ghost predicate OpenTrap(edges: Edges, states: seq<Node>, i: nat, p: seq<Node>, y: Node) {
    && i < |states| && Trap(edges, p, y) && p[0] == states[i]
    && forall j :: 0 <= j < i && Reaches(edges, states[j]) ==> ReachesAvoiding(edges, states[j], Touched(p, y))
  }

  ghost predicate NoOpenTrap(edges: Edges, states: seq<Node>) {
    forall i, p, y :: !OpenTrap(edges, states, i, p, y)
  }

  // ----- without open traps the pass is exact -----

  /** A walk to a terminal through nodes that all have an entry. */
  ghost predicate FinishesWithin(edges: Edges, memo: Memo, n: Node) {
    exists w :: WalkWithin(edges, memo, n, w)
  }

  ghost predicate WalkWithin(edges: Edges, memo: Memo, n: Node, w: seq<Node>) {
    WalkToTerminal(edges, n, w, {}) && forall k :: 0 <= k < |w| ==> w[k] in memo || w[k] in TERMINALS
  }

  /** Every entry is right, and every True has its walk among the entries. */
  ghost predicate MemoSound(edges: Edges, memo: Memo) {
    MemoExact(edges, memo) && forall k :: k in memo && memo[k] ==> FinishesWithin(edges, memo, k)
  }

  ghost predicate Answered(memo: Memo, states: seq<Node>, i: nat) {
    i <= |states| && forall j :: 0 <= j < i ==> states[j] in memo || states[j] in TERMINALS
  }

  lemma WithinMore(edges: Edges, memo: Memo, more: Memo, n: Node)
    requires FinishesWithin(edges, memo, n) && memo.Keys <= more.Keys
    ensures FinishesWithin(edges, more, n)
  {
    var w :| WalkWithin(edges, memo, n, w);
    assert WalkWithin(edges, more, n, w);
  }

  lemma WithinStep(edges: Edges, memo: Memo, n: Node, t: Node)
    requires n in edges && t in edges[n] && FinishesWithin(edges, memo, t)
    ensures FinishesWithin(edges, memo[n := true], n)
  {
    var w :| WalkWithin(edges, memo, t, w);
    assert WalkWithin(edges, memo[n := true], n, [n] + w);
  }

  lemma WithinAvoids(edges: Edges, memo: Memo, n: Node, avoided: set<Node>)
    requires FinishesWithin(edges, memo, n) && avoided !! memo.Keys && avoided !! TERMINALS
    ensures ReachesAvoiding(edges, n, avoided)
  {
    var w :| WalkWithin(edges, memo, n, w);
    assert WalkToTerminal(edges, n, w, avoided);
  }

  lemma EntryAdded(edges: Edges, memo: Memo, n: Node, found: bool)
    requires MemoSound(edges, memo) && n !in memo && (found <==> Reaches(edges, n))
    requires found ==> FinishesWithin(edges, memo[n := true], n)
    ensures MemoSound(edges, memo[n := found])
  {
    hide ReachesAvoiding, FinishesWithin;
    var more := memo[n := found];
    forall k | k in more && more[k] ensures FinishesWithin(edges, more, k) {
      if k != n { WithinMore(edges, memo, more, k); }
    }
  }

  /** The chain being visited starts at the current root, and nothing on it has an entry. */
  ghost predicate Chain(edges: Edges, states: seq<Node>, i: nat, memo: Memo, p: seq<Node>) {
    && i < |states| && Answered(memo, states, i)
    && (p != [] ==> p[0] == states[i])
    && forall v :: v in p ==> v in edges && v !in memo
  }

  lemma AwayFromChain(edges: Edges, states: seq<Node>, i: nat, memo: Memo, p: seq<Node>, n: Node)
    requires NoOpenTrap(edges, states) && MemoSound(edges, memo) && Chain(edges, states, i, memo, p)
    requires Visiting(edges, p, n) && n !in p && n !in TERMINALS && n !in memo && Reaches(edges, n)
    ensures ReachesAvoiding(edges, n, Elements(p))
  {
    hide FinishesWithin, Reaches, ReachesAvoiding;
    assert !OpenTrap(edges, states, i, p, n);
    if p == [] {
      assert Elements(p) == {} && Reaches(edges, n) == ReachesAvoiding(edges, n, {}) by { NoneAvoided(edges, n); }
    } else if !ReachesAvoiding(edges, n, Elements(p)) {
      assert Trap(edges, p, n);
      forall j | 0 <= j < i && Reaches(edges, states[j])
        ensures ReachesAvoiding(edges, states[j], Touched(p, n))
      {
        EarlierKeepsOff(edges, memo, p, n, states[j]);
      }
    }
  }

  lemma NoneAvoided(edges: Edges, n: Node)
    ensures Reaches(edges, n) == ReachesAvoiding(edges, n, {})
  {
  }

  lemma EarlierKeepsOff(edges: Edges, memo: Memo, p: seq<Node>, n: Node, s: Node)
    requires MemoSound(edges, memo) && (s in memo || s in TERMINALS) && Reaches(edges, s)
    requires n !in memo && n !in TERMINALS && forall v :: v in p ==> v !in memo && v !in TERMINALS
    ensures ReachesAvoiding(edges, s, Touched(p, n))
  {
    hide ReachesAvoiding, FinishesWithin;
    if s in TERMINALS {
      TerminalReaches(edges, s, Touched(p, n));
    } else {
      WithinAvoids(edges, memo, s, Touched(p, n));
    }
  }

  lemma {:induction false} SearchSound(edges: Edges, states: seq<Node>, i: nat, n: Node, memo: Memo, p: seq<Node>)
    requires NoOpenTrap(edges, states) && MemoSound(edges, memo) && Chain(edges, states, i, memo, p)
    requires Visiting(edges, p, n) && (p == [] ==> n == states[i])
    ensures var (found, m) := Search(edges, n, memo, Elements(p));
            MemoSound(edges, m) && (found <==> n !in p && Reaches(edges, n))
            && (found ==> n in TERMINALS || FinishesWithin(edges, m, n))
    decreases edges.Keys - Elements(p), 0
  {
    hide NoOpenTrap, ReachesAvoiding, Visiting, FinishesWithin, MemoSound, Chain;
    SoundFacts(edges, memo);
    ChainFacts(edges, states, i, memo, p);
    if n in TERMINALS {
      TerminalReaches(edges, n, {});
      VisitingIsNotTerminal(edges, p, n);
    } else if n in memo {
    } else if n !in edges {
      if Reaches(edges, n) { var t := FirstStep(edges, n, {}); }
      EntryAdded(edges, memo, n, false);
    } else if n !in p {
      assert Elements(p + [n]) == Elements(p) + {n};
      forall t | t in edges[n] ensures Visiting(edges, p + [n], t) { AppendVisiting(edges, p, n, t); }
      ChainGrows(edges, states, i, memo, p, n);
      SearchAnySound(edges, states, i, edges[n], memo, p + [n]);
      SearchAnyKeeps(edges, edges[n], memo, Elements(p + [n]));
      var (found, m) := SearchAny(edges, edges[n], memo, Elements(p + [n]));
      if found {
        var t :| t in edges[n] && Reaches(edges, t) && (t in TERMINALS || FinishesWithin(edges, m, t));
        StepReaches(edges, n, t, {});
        if t in TERMINALS { TerminalWithin(edges, m, t); }
        WithinStep(edges, m, n, t);
      } else if Reaches(edges, n) {
        AwayFromChain(edges, states, i, memo, p, n);
        var t := FirstStep(edges, n, Elements(p));
        AvoidingLess(edges, t, Elements(p), {});
      }
      EntryAdded(edges, m, n, found);
    }
  }

  lemma TerminalWithin(edges: Edges, memo: Memo, t: Node)
    requires t in TERMINALS
    ensures FinishesWithin(edges, memo, t)
  {
    assert WalkWithin(edges, memo, t, [t]);
  }

  lemma SoundFacts(edges: Edges, memo: Memo)
    requires MemoSound(edges, memo)
    ensures MemoExact(edges, memo) && forall k :: k in memo && memo[k] ==> FinishesWithin(edges, memo, k)
  {
  }

  lemma ChainFacts(edges: Edges, states: seq<Node>, i: nat, memo: Memo, p: seq<Node>)
    requires Chain(edges, states, i, memo, p)
    ensures i < |states| && forall v :: v in p ==> v in edges && v !in memo
  {
  }

  lemma ChainGrows(edges: Edges, states: seq<Node>, i: nat, memo: Memo, p: seq<Node>, n: Node)
    requires Chain(edges, states, i, memo, p) && n in edges && n !in memo && (p == [] ==> n == states[i])
    ensures Chain(edges, states, i, memo, p + [n])
  {
  }

  lemma ChainStays(edges: Edges, states: seq<Node>, i: nat, memo: Memo, p: seq<Node>, n: Node)
    requires Chain(edges, states, i, memo, p)
    ensures Chain(edges, states, i, Search(edges, n, memo, Elements(p)).1, p)
  {
    SearchKeeps(edges, n, memo, Elements(p));
  }

  lemma {:induction false} SearchAnySound(edges: Edges, states: seq<Node>, i: nat, targets: seq<Node>, memo: Memo,
                                          p: seq<Node>)
    requires NoOpenTrap(edges, states) && MemoSound(edges, memo) && Chain(edges, states, i, memo, p) && p != []
    requires forall t :: t in targets ==> Visiting(edges, p, t)
    ensures var (found, m) := SearchAny(edges, targets, memo, Elements(p));
            && MemoSound(edges, m)
            && (found ==> exists t :: t in targets && Reaches(edges, t)
                                      && (t in TERMINALS || FinishesWithin(edges, m, t)))
            && (!found ==> forall t :: t in targets ==> t in p || !Reaches(edges, t))
    decreases edges.Keys - Elements(p), |targets| + 1
  {
    hide NoOpenTrap, ReachesAvoiding, Visiting, FinishesWithin, MemoSound, Chain;
    if targets != [] {
      SearchSound(edges, states, i, targets[0], memo, p);
      ChainStays(edges, states, i, memo, p, targets[0]);
      var (found, m) := Search(edges, targets[0], memo, Elements(p));
      if found {
        assert targets[0] in targets;
      } else {
        SearchAnySound(edges, states, i, targets[1..], m, p);
        forall t | t in targets ensures t == targets[0] || t in targets[1..] {}
      }
    }
  }

  /** The root of one search is answered afterwards. */
  lemma RootAnswered(edges: Edges, memo: Memo, states: seq<Node>, i: nat)
    requires Answered(memo, states, i) && i < |states|
    ensures Answered(Search(edges, states[i], memo, {}).1, states, i + 1)
  {
    SearchKeeps(edges, states[i], memo, {});
  }

  lemma {:induction false} SoundPass(edges: Edges, states: seq<Node>, i: nat, memo: Memo, s: Node)
    requires NoOpenTrap(edges, states) && MemoSound(edges, memo) && Answered(memo, states, i) && s in states[i..]
    ensures s in Flagged(edges, states[i..], memo) <==> !Reaches(edges, s)
    decreases |states| - i
  {
    hide NoOpenTrap, ReachesAvoiding, MemoSound, Answered;
    var rest := states[i..];
    assert rest[0] == states[i] && rest[1..] == states[i + 1..];
    EmptyChain(edges, states, i, memo);
    SearchSound(edges, states, i, states[i], memo, []);
    RootAnswered(edges, memo, states, i);
    var (found, m) := Search(edges, states[i], memo, {});
    if s in states[i + 1..] {
      SoundPass(edges, states, i + 1, m, s);
      if s == states[i] { assert found <==> Reaches(edges, s); }
    } else {
      FlaggedAreListed(edges, states[i + 1..], m);
    }
  }

  lemma EmptyChain(edges: Edges, states: seq<Node>, i: nat, memo: Memo)
    requires Answered(memo, states, i) && i < |states|
    ensures Chain(edges, states, i, memo, []) && Visiting(edges, [], states[i]) && Elements<Node>([]) == {}
  {
  }

  // ----- an open trap springs under some successor order -----

  ghost predicate ReachesIn(edges: Edges, n: Node, avoided: set<Node>, length: nat) {
    exists w :: WalkToTerminal(edges, n, w, avoided) && |w| == length
  }

  lemma {:induction false} ShortestWalk(edges: Edges, n: Node, avoided: set<Node>, length: nat) returns (least: nat)
    requires ReachesIn(edges, n, avoided, length)
    ensures least <= length && ReachesIn(edges, n, avoided, least)
    ensures forall k: nat :: k < least ==> !ReachesIn(edges, n, avoided, k)
  {
    if k: nat :| k < length && ReachesIn(edges, n, avoided, k) {
      least := ShortestWalk(edges, n, avoided, k);
    } else {
      least := length;
    }
  }

  /** The length of the shortest walk to a terminal. */
  ghost predicate IsDistance(edges: Edges, n: Node, avoided: set<Node>, d: nat) {
    ReachesIn(edges, n, avoided, d) && forall k: nat :: k < d ==> !ReachesIn(edges, n, avoided, k)
  }

  ghost predicate IsNearer(edges: Edges, n: Node, avoided: set<Node>, t: Node) {
    && n in edges && t in edges[n]
    && exists d: nat :: IsDistance(edges, n, avoided, d + 1) && IsDistance(edges, t, avoided, d)
  }

  lemma HasDistance(edges: Edges, n: Node, avoided: set<Node>) returns (d: nat)
    requires ReachesAvoiding(edges, n, avoided)
    ensures IsDistance(edges, n, avoided, d) && d > 0
  {
    var w :| WalkToTerminal(edges, n, w, avoided);
    assert ReachesIn(edges, n, avoided, |w|);
    d := ShortestWalk(edges, n, avoided, |w|);
  }

  lemma LongerBy(edges: Edges, n: Node, avoided: set<Node>, t: Node, k: nat)
    requires n in edges && t in edges[n] && n !in avoided && ReachesIn(edges, t, avoided, k)
    ensures ReachesIn(edges, n, avoided, k + 1)
  {
    var w :| WalkToTerminal(edges, t, w, avoided) && |w| == k;
    assert WalkToTerminal(edges, n, [n] + w, avoided);
  }

  lemma HasNearer(edges: Edges, n: Node, avoided: set<Node>) returns (t: Node)
    requires ReachesAvoiding(edges, n, avoided) && n !in TERMINALS
    ensures IsNearer(edges, n, avoided, t)
  {
    var d := HasDistance(edges, n, avoided);
    var w :| WalkToTerminal(edges, n, w, avoided) && |w| == d;
    t := w[1];
    assert WalkToTerminal(edges, t, w[1..], avoided);
    assert ReachesIn(edges, t, avoided, d - 1);
    if k: nat :| k < d - 1 && ReachesIn(edges, t, avoided, k) {
      LongerBy(edges, n, avoided, t, k);
    }
    assert IsDistance(edges, t, avoided, d - 1);
  }

  ghost predicate GoesNearer(edges: Edges, n: Node, avoided: set<Node>) {
    n !in avoided && n !in TERMINALS && ReachesAvoiding(edges, n, avoided)
  }

  ghost function Nearer(edges: Edges, n: Node, avoided: set<Node>): (t: Node)
    requires GoesNearer(edges, n, avoided)
    ensures IsNearer(edges, n, avoided, t)
  {
    assert exists t :: IsNearer(edges, n, avoided, t) by { var t := HasNearer(edges, n, avoided); }
    var t :| IsNearer(edges, n, avoided, t);
    t
  }

  /**
   * The successor order that springs the trap: the states of p try the next one on the way to y first, and every
   * other state that can finish without touching the trap tries a nearer one first.
   */
  ghost function Springing(edges: Edges, p: seq<Node>, y: Node): Edges {
    map n | n in edges ::
      if n in p then First(NextOn(p + [y], n), edges[n])
      else if GoesNearer(edges, n, Touched(p, y)) then First(Nearer(edges, n, Touched(p, y)), edges[n])
      else edges[n]
  }

  function First(t: Node, targets: seq<Node>): (r: seq<Node>)
    ensures r != [] && r[0] == t && (t in targets ==> forall s :: s in r <==> s in targets)
    ensures Distinct(targets) ==> Distinct(r)
  {
    [t] + Without(targets, t)
  }

  lemma NextIsSuccessor(edges: Edges, p: seq<Node>, y: Node, k: nat)
    requires Approach(edges, p, y) && k < |p|
    ensures NextOn(p + [y], p[k]) == (p + [y])[k + 1] && p[k] in edges && (p + [y])[k + 1] in edges[p[k]]
  {
    var w := p + [y];
    assert Init(w) == p && w[k] == p[k];
    NextOnAt(w, k);
  }

  lemma SpringingIsSameGraph(edges: Edges, p: seq<Node>, y: Node)
    requires Approach(edges, p, y)
    ensures SameGraph(edges, Springing(edges, p, y)) && (SetOrders(edges) ==> SetOrders(Springing(edges, p, y)))
  {
    hide GoesNearer, First, NextOn, Approach;
    var e := Springing(edges, p, y);
    forall n, t | n in edges ensures t in edges[n] <==> t in e[n] {
      if n in p {
        var k :| 0 <= k < |p| && p[k] == n;
        NextIsSuccessor(edges, p, y, k);
      }
    }
  }

  // ----- the searches before the trap -----

  /** No entry touches the trap, every True can finish without touching it, and every False is right. */
  ghost predicate Untouched(edges: Edges, memo: Memo, touched: set<Node>) {
    forall k :: k in memo ==>
      k !in touched && (if memo[k] then ReachesAvoiding(edges, k, touched) else !Reaches(edges, k))
  }

  /** The order tries a nearer successor first wherever that avoids the trap. */
  ghost predicate NearerFirst(e: Edges, touched: set<Node>) {
    forall n :: n in e && GoesNearer(e, n, touched) ==> e[n] != [] && IsNearer(e, n, touched, e[n][0])
  }

  lemma DistanceIsUnique(e: Edges, n: Node, avoided: set<Node>, c: nat, d: nat)
    requires IsDistance(e, n, avoided, c) && IsDistance(e, n, avoided, d)
    ensures c == d
  {
    assert ReachesIn(e, n, avoided, c) && ReachesIn(e, n, avoided, d);
  }

  lemma NearerFacts(e: Edges, n: Node, touched: set<Node>, d: nat)
    requires NearerFirst(e, touched) && GoesNearer(e, n, touched) && IsDistance(e, n, touched, d)
    ensures n in e && e[n] != [] && d > 0 && IsDistance(e, e[n][0], touched, d - 1)
    ensures ReachesAvoiding(e, e[n][0], touched)
  {
    hide IsDistance, ReachesIn;
    var t := HasNearer(e, n, touched);
    var c: nat :| IsDistance(e, n, touched, c + 1) && IsDistance(e, e[n][0], touched, c);
    DistanceIsUnique(e, n, touched, c + 1, d);
    InReaches(e, e[n][0], touched, c);
  }

  lemma InReaches(e: Edges, n: Node, avoided: set<Node>, d: nat)
    requires IsDistance(e, n, avoided, d)
    ensures ReachesAvoiding(e, n, avoided) && n !in avoided
  {
    var w :| WalkToTerminal(e, n, w, avoided) && |w| == d;
    assert w[0] !in avoided;
  }

  /** A state that can finish without touching the trap is answered True by a search that does not touch it. */
  lemma {:induction false} DirectSearch(e: Edges, n: Node, memo: Memo, visiting: set<Node>, touched: set<Node>, d: nat)
    requires NearerFirst(e, touched) && Untouched(e, memo, touched) && IsDistance(e, n, touched, d)
    requires forall v :: v in visiting ==> exists c: nat :: c > d && IsDistance(e, v, touched, c)
    ensures var (found, m) := Search(e, n, memo, visiting); found && Untouched(e, m, touched)
    decreases d
  {
    hide IsDistance, NearerFirst, Untouched, ReachesAvoiding, IsNearer, Reaches;
    InReaches(e, n, touched, d);
    UntouchedFacts(e, memo, touched, n);
    if n !in TERMINALS && n !in memo {
      NearerFacts(e, n, touched, d);
      if n in visiting {
        var c: nat :| c > d && IsDistance(e, n, touched, c);
        DistanceIsUnique(e, n, touched, c, d);
      }
      DirectSearch(e, e[n][0], memo, visiting + {n}, touched, d - 1);
      var m := Search(e, e[n][0], memo, visiting + {n}).1;
      TrueAdded(e, m, touched, n);
    }
  }

  lemma UntouchedFacts(e: Edges, memo: Memo, touched: set<Node>, n: Node)
    requires Untouched(e, memo, touched) && ReachesAvoiding(e, n, touched)
    ensures n in memo ==> memo[n]
  {
    AvoidingLess(e, n, touched, {});
  }

  lemma TrueAdded(e: Edges, memo: Memo, touched: set<Node>, n: Node)
    requires Untouched(e, memo, touched) && ReachesAvoiding(e, n, touched) && n !in touched
    ensures Untouched(e, memo[n := true], touched)
  {
  }

  /** A state that cannot finish is answered False by a search that does not touch the trap. */
  lemma {:induction false} DeadSearch(e: Edges, n: Node, memo: Memo, visiting: set<Node>, touched: set<Node>)
    requires Untouched(e, memo, touched) && !Reaches(e, n) && forall s :: s in touched ==> Reaches(e, s)
    ensures var (found, m) := Search(e, n, memo, visiting); !found && Untouched(e, m, touched)
    decreases e.Keys - visiting, 0
  {
    hide ReachesAvoiding;
    if n in TERMINALS {
      TerminalReaches(e, n, {});
    } else if n in memo {
      if memo[n] { AvoidingLess(e, n, touched, {}); }
    } else if n in e && n !in visiting {
      forall t | t in e[n] ensures !Reaches(e, t) {
        if Reaches(e, t) { StepReaches(e, n, t, {}); }
      }
      DeadSearchAny(e, e[n], memo, visiting + {n}, touched);
    }
  }

  lemma {:induction false} DeadSearchAny(e: Edges, targets: seq<Node>, memo: Memo, visiting: set<Node>,
                                         touched: set<Node>)
    requires Untouched(e, memo, touched) && forall s :: s in touched ==> Reaches(e, s)
    requires forall t :: t in targets ==> !Reaches(e, t)
    ensures var (found, m) := SearchAny(e, targets, memo, visiting); !found && Untouched(e, m, touched)
    decreases e.Keys - visiting, |targets| + 1
  {
    hide Reaches, Untouched;
    if targets != [] {
      DeadSearch(e, targets[0], memo, visiting, touched);
      DeadSearchAny(e, targets[1..], Search(e, targets[0], memo, visiting).1, visiting, touched);
    }
  }

  // ----- the search that springs the trap -----

  lemma OpenTrapBottom(e: Edges, p: seq<Node>, y: Node, memo: Memo)
    requires Untouched(e, memo, Touched(p, y)) && y in e && y !in p && y !in TERMINALS
    requires !ReachesAvoiding(e, y, Elements(p)) && Elements(p) !! TERMINALS
    ensures Refuted(Search(e, y, memo, Elements(p)).1, y)
  {
    hide ReachesAvoiding, SearchAny;
    forall k | k in memo && memo[k] ensures ReachesAvoiding(e, k, Elements(p)) {
      AvoidingLess(e, k, Touched(p, y), Elements(p));
    }
    SearchTrue(e, y, memo, Elements(p), Elements(p));
  }

  lemma FirstChildLeaves(e: Edges, n: Node, next: Node, memo: Memo, visiting: set<Node>, y: Node)
    requires n in e && e[n] != [] && e[n][0] == next && n !in TERMINALS && n !in visiting && n != y && n !in memo
    requires Refuted(Search(e, next, memo, visiting + {n}).1, y)
    ensures Refuted(Search(e, n, memo, visiting).1, y)
  {
    SearchAnyKeeps(e, e[n][1..], Search(e, next, memo, visiting + {n}).1, visiting + {n});
  }

  /** Each state of p tries the next one on the way to y first. */
  ghost predicate DownFirst(e: Edges, p: seq<Node>, y: Node) {
    forall k :: 0 <= k < |p| ==> p[k] in e && e[p[k]] != [] && e[p[k]][0] == (p + [y])[k + 1]
  }

  lemma {:induction false} OpenTrapSprings(e: Edges, p: seq<Node>, y: Node, memo: Memo, k: nat)
    requires DownFirst(e, p, y) && Trap(e, p, y) && Untouched(e, memo, Touched(p, y)) && k <= |p|
    ensures Refuted(Search(e, (p + [y])[k], memo, Elements(p[..k])).1, y)
    decreases |p| - k
  {
    hide Search, Refuted, Reaches, ReachesAvoiding;
    if k == |p| {
      assert p[..k] == p;
      TrapEnd(e, p, y);
      OpenTrapBottom(e, p, y, memo);
    } else {
      OpenTrapSprings(e, p, y, memo, k + 1);
      assert p[..k + 1] == p[..k] + [p[k]];
      assert Elements(p[..k + 1]) == Elements(p[..k]) + {p[k]};
      assert p[k] !in Elements(p[..k]) && p[k] in Touched(p, y);
      FirstChildLeaves(e, p[k], (p + [y])[k + 1], memo, Elements(p[..k]), y);
    }
  }

  lemma TrapEnd(e: Edges, p: seq<Node>, y: Node)
    requires Trap(e, p, y)
    ensures y in e && y !in p && y !in TERMINALS && !ReachesAvoiding(e, y, Elements(p)) && Elements(p) !! TERMINALS
  {
    var t := FirstStep(e, y, {});
  }

  // ----- the whole pass -----

  /** The memo after these states have been searched. */
  function After(e: Edges, states: seq<Node>, memo: Memo): Memo {
    if states == [] then memo else After(e, states[1..], Search(e, states[0], memo, {}).1)
  }

  lemma {:induction false} FlaggedLater(e: Edges, states: seq<Node>, i: nat, memo: Memo, s: Node)
    requires i <= |states| && s in Flagged(e, states[i..], After(e, states[..i], memo))
    ensures s in Flagged(e, states, memo)
    decreases i
  {
    hide Search;
    if i == 0 {
      assert states[0..] == states;
    } else {
      assert states[1..][i - 1..] == states[i..] && states[..i][1..] == states[1..][..i - 1];
      FlaggedLater(e, states[1..], i - 1, Search(e, states[0], memo, {}).1, s);
    }
  }

  /** States that keep off the trap, or cannot finish, leave it untouched. */
  lemma {:induction false} EarlierSearches(e: Edges, states: seq<Node>, memo: Memo, touched: set<Node>)
    requires NearerFirst(e, touched) && Untouched(e, memo, touched) && forall s :: s in touched ==> Reaches(e, s)
    requires forall s :: s in states && Reaches(e, s) ==> ReachesAvoiding(e, s, touched)
    ensures Untouched(e, After(e, states, memo), touched)
  {
    hide Reaches, ReachesAvoiding, NearerFirst, Untouched;
    if states != [] {
      if Reaches(e, states[0]) {
        var d := HasDistance(e, states[0], touched);
        DirectSearch(e, states[0], memo, {}, touched, d);
      } else {
        DeadSearch(e, states[0], memo, {}, touched);
      }
      EarlierSearches(e, states[1..], Search(e, states[0], memo, {}).1, touched);
    }
  }

  lemma SameNearer(a: Edges, b: Edges, n: Node, avoided: set<Node>, t: Node)
    requires SameGraph(a, b) && IsNearer(a, n, avoided, t)
    ensures IsNearer(b, n, avoided, t)
  {
    hide SameGraph;
    var d: nat :| IsDistance(a, n, avoided, d + 1) && IsDistance(a, t, avoided, d);
    SameDistance(a, b, n, avoided, d + 1);
    SameDistance(a, b, t, avoided, d);
    assert n in b && t in b[n] by { SameEdge(a, b, n, t); }
  }

  lemma SameEdge(a: Edges, b: Edges, n: Node, t: Node)
    requires SameGraph(a, b) && n in a && t in a[n]
    ensures n in b && t in b[n]
  {
  }

  lemma SameDistance(a: Edges, b: Edges, n: Node, avoided: set<Node>, d: nat)
    requires SameGraph(a, b) && IsDistance(a, n, avoided, d)
    ensures IsDistance(b, n, avoided, d)
  {
    forall k: nat ensures ReachesIn(a, n, avoided, k) <==> ReachesIn(b, n, avoided, k) {
      SameReachIn(a, b, n, avoided, k);
    }
  }

  lemma SameReachIn(a: Edges, b: Edges, n: Node, avoided: set<Node>, k: nat)
    requires SameGraph(a, b)
    ensures ReachesIn(a, n, avoided, k) <==> ReachesIn(b, n, avoided, k)
  {
    if w :| WalkToTerminal(a, n, w, avoided) && |w| == k {
      SameWalks(a, b, w);
      assert WalkToTerminal(b, n, w, avoided);
    }
    if w :| WalkToTerminal(b, n, w, avoided) && |w| == k {
      SameWalks(a, b, w);
      assert WalkToTerminal(a, n, w, avoided);
    }
  }

  lemma SpringingOrders(edges: Edges, p: seq<Node>, y: Node)
    requires Approach(edges, p, y)
    ensures var e := Springing(edges, p, y); NearerFirst(e, Touched(p, y)) && DownFirst(e, p, y)
  {
    hide First, NextOn, IsNearer, ReachesAvoiding, Approach;
    var e, touched := Springing(edges, p, y), Touched(p, y);
    SpringingIsSameGraph(edges, p, y);
    forall n | n in e && GoesNearer(e, n, touched) ensures e[n] != [] && IsNearer(e, n, touched, e[n][0]) {
      SameReach(edges, e, n, touched);
      assert n !in p && GoesNearer(edges, n, touched);
      SameNearer(edges, e, n, touched, Nearer(edges, n, touched));
    }
    forall k | 0 <= k < |p| ensures p[k] in e && e[p[k]] != [] && e[p[k]][0] == (p + [y])[k + 1] {
      NextIsSuccessor(edges, p, y, k);
    }
  }

  lemma TrapStatesReach(edges: Edges, p: seq<Node>, y: Node)
    requires Trap(edges, p, y)
    ensures forall s :: s in Touched(p, y) ==> Reaches(edges, s)
  {
    forall k | 0 <= k < |p| ensures Reaches(edges, p[k]) { OnTheWay(edges, p, y, k); }
  }

  lemma {:induction false} OnTheWay(edges: Edges, p: seq<Node>, y: Node, k: nat)
    requires Trap(edges, p, y) && k < |p|
    ensures Reaches(edges, p[k])
    decreases |p| - k
  {
    hide ReachesAvoiding;
    var w := p + [y];
    assert w[k] in edges && w[k + 1] in edges[w[k]];
    if k + 1 < |p| { OnTheWay(edges, p, y, k + 1); }
    StepReaches(edges, p[k], w[k + 1], {});
  }

  lemma SameTrap(a: Edges, b: Edges, p: seq<Node>, y: Node)
    requires SameGraph(a, b) && Trap(a, p, y)
    ensures Trap(b, p, y)
  {
    SameWalks(a, b, p + [y]);
    SameReach(a, b, y, {});
    SameReach(a, b, y, Elements(p));
  }

  /** The order that springs an open trap makes the pass report a state that can finish. */
  lemma OpenTrapFails(edges: Edges, states: seq<Node>, i: nat, p: seq<Node>, y: Node)
    requires OpenTrap(edges, states, i, p, y) && Listing(edges, states) && SetOrders(edges)
    ensures Reordered(edges, Springing(edges, p, y)) && !PassIsExact(Springing(edges, p, y), states)
  {
    hide ReachesAvoiding, Reaches, Springing, Touched, NearerFirst, DownFirst, Untouched, SameGraph, SetOrders, Trap;
    var e, touched := Springing(edges, p, y), Touched(p, y);
    OpenTrapFacts(edges, states, i, p, y);
    SpringingIsSameGraph(edges, p, y);
    SpringingOrders(edges, p, y);
    SameTrap(edges, e, p, y);
    TrapStatesReach(e, p, y);
    forall s | s in states[..i] && Reaches(e, s) ensures ReachesAvoiding(e, s, touched) {
      KeepsOff(edges, e, states, i, p, y, s);
    }
    NothingTouched(e, touched);
    EarlierSearches(e, states[..i], map[], touched);
    var memo := After(e, states[..i], map[]);
    OpenTrapSprings(e, p, y, memo, 0);
    LaterFlag(e, states, i, p, y, memo);
  }

  lemma NothingTouched(e: Edges, touched: set<Node>)
    ensures Untouched(e, map[], touched)
  {
  }

  lemma KeepsOff(edges: Edges, e: Edges, states: seq<Node>, i: nat, p: seq<Node>, y: Node, s: Node)
    requires OpenTrap(edges, states, i, p, y) && SameGraph(edges, e) && s in states[..i] && Reaches(e, s)
    ensures ReachesAvoiding(e, s, Touched(p, y))
  {
    hide ReachesAvoiding, SameGraph, Touched, Trap;
    var j :| 0 <= j < i && states[j] == s;
    SameReach(edges, e, s, {});
    SameReach(edges, e, s, Touched(p, y));
  }

  lemma StartCounts(edges: Edges, n: Node, avoided: set<Node>)
    ensures n in avoided ==> !ReachesAvoiding(edges, n, avoided)
  {
    if w :| WalkToTerminal(edges, n, w, avoided) { assert w[0] !in avoided; }
  }

  /** y is listed, and not before the trap's entrance. */
  lemma OpenTrapFacts(edges: Edges, states: seq<Node>, i: nat, p: seq<Node>, y: Node)
    requires OpenTrap(edges, states, i, p, y) && Listing(edges, states)
    ensures Trap(edges, p, y) && Approach(edges, p, y) && p != [] && p[0] == states[i] && y in states[i + 1..]
  {
    hide Reaches;
    NoneAvoided(edges, y);
    var t := FirstStep(edges, y, {});
    assert y in Elements(states);
    var n :| 0 <= n < |states| && states[n] == y;
    StartCounts(edges, y, Touched(p, y));
    assert states[i + 1..][n - i - 1] == y;
  }

  lemma LaterFlag(e: Edges, states: seq<Node>, i: nat, p: seq<Node>, y: Node, memo: Memo)
    requires i < |states| && p != [] && p[0] == states[i] && y in states[i + 1..]
             && memo == After(e, states[..i], map[])
    requires Refuted(Search(e, (p + [y])[0], memo, Elements(p[..0])).1, y) && Trap(e, p, y)
    ensures !PassIsExact(e, states)
  {
    hide Search, After, ReachesAvoiding;
    var rest := states[i..];
    assert rest[0] == states[i] && rest[1..] == states[i + 1..] && (p + [y])[0] == p[0];
    assert Elements(p[..0]) == {};
    RefutedIsFlagged(e, rest[1..], Search(e, p[0], memo, {}).1, y);
    assert y in Flagged(e, rest, memo);
    FlaggedLater(e, states, i, map[], y);
    assert y in states;
  }

  // ----- exactly -----

  /** For this listing the answers are exact whatever order the successor sets are iterated in. */
  ghost predicate ListedExact(edges: Edges, states: seq<Node>) {
    forall e :: Reordered(edges, e) ==> PassIsExact(e, states)
  }

  lemma SameOpenTraps(a: Edges, b: Edges, states: seq<Node>)
    requires SameGraph(a, b) && NoOpenTrap(a, states)
    ensures NoOpenTrap(b, states)
  {
    hide SameGraph, Trap, Reaches, ReachesAvoiding;
    SameGraphTurned(a, b);
    forall i, p, y ensures !OpenTrap(b, states, i, p, y) {
      if OpenTrap(b, states, i, p, y) { OpenTrapTurned(b, a, states, i, p, y); }
    }
  }

  lemma SameGraphTurned(a: Edges, b: Edges)
    requires SameGraph(a, b)
    ensures SameGraph(b, a)
  {
  }

  lemma OpenTrapTurned(a: Edges, b: Edges, states: seq<Node>, i: nat, p: seq<Node>, y: Node)
    requires SameGraph(a, b) && OpenTrap(a, states, i, p, y)
    ensures OpenTrap(b, states, i, p, y)
  {
    hide SameGraph, Trap, ReachesAvoiding;
    SameTrap(a, b, p, y);
    forall j | 0 <= j < i && Reaches(b, states[j]) ensures ReachesAvoiding(b, states[j], Touched(p, y)) {
      SameReach(a, b, states[j], {});
      SameReach(a, b, states[j], Touched(p, y));
    }
  }

  lemma SoundWholePass(e: Edges, states: seq<Node>)
    requires NoOpenTrap(e, states)
    ensures PassIsExact(e, states)
  {
    hide NoOpenTrap, Reaches;
    assert states[0..] == states;
    forall s | s in states ensures s in Flagged(e, states, map[]) <==> !Reaches(e, s) {
      SoundPass(e, states, 0, map[], s);
    }
  }

  /** The pass over a given listing is exact for every successor order iff no trap is open to that listing. */
  lemma ExactListingIffNoOpenTrap(edges: Edges, states: seq<Node>)
    requires Listing(edges, states) && SetOrders(edges)
    ensures ListedExact(edges, states) <==> NoOpenTrap(edges, states)
  {
    hide SameGraph, SetOrders, OpenTrap, PassIsExact, Springing;
    if NoOpenTrap(edges, states) {
      forall e | Reordered(edges, e) ensures PassIsExact(e, states) {
        SameOpenTraps(edges, e, states);
        SoundWholePass(e, states);
      }
    } else {
      var i, p, y :| OpenTrap(edges, states, i, p, y);
      OpenTrapFails(edges, states, i, p, y);
    }
  }
}
