/** The canonical text of a UI tree (contracts/ui-observation/v1/tools/check_fixtures.py, `canonical_tree`). */
module CanonicalTree {
  import opened Common
  import opened Ordering
  import Text

  datatype Value = Str(s: string) | Bool(b: bool)

  datatype Node = Node(depth: int, index: int, fields: map<string, Value>)

  const NODE_FIELDS := ["class", "resourceId", "text", "contentDesc", "bounds", "clickable"]

  type Key = (int, int)

  function KeyOf(n: Node): Key {
    (n.depth, n.index)
  }

  /** Tuples compare by depth, then by index. */
  predicate KeyLe(a: Key, b: Key) {
    a.0 < b.0 || (a.0 == b.0 && a.1 <= b.1)
  }

  predicate NodeLe(a: Node, b: Node) {
    KeyLe(KeyOf(a), KeyOf(b))
  }

  predicate Complete(n: Node) {
    forall k :: k in NODE_FIELDS ==> k in n.fields
  }

  function Render(v: Value): string {
    match v
    case Str(s) => s
    case Bool(b) => if b then "true" else "false"
  }

  /** The rendered value of a field; reading a missing field is an error in the source. */
  function FieldText(n: Node, k: string): string {
    if k in n.fields then Render(n.fields[k]) else ""
  }

  function Line(n: Node, k: string): string {
    k + "=" + FieldText(n, k)
  }

  function LinesOf(n: Node, keys: seq<string>): (r: seq<string>)
    ensures |r| == |keys| && forall k :: 0 <= k < |keys| ==> r[k] == Line(n, keys[k])
  {
    seq(|keys|, k requires 0 <= k < |keys| => Line(n, keys[k]))
  }

  function AllLines(nodes: seq<Node>, keys: seq<string>): seq<string> {
    if nodes == [] then [] else AllLines(Init(nodes), keys) + LinesOf(Last(nodes), keys)
  }

  function FieldOrder(): seq<string> {
    Sorted(NODE_FIELDS)
  }

  function CanonicalText(nodes: seq<Node>): string {
    Text.Join('\n', AllLines(SortBy(NodeLe, nodes), FieldOrder()))
  }

  method CanonicalTree(nodes: seq<Node>) returns (text: string)
    requires forall k :: 0 <= k < |nodes| ==> Complete(nodes[k])
    ensures text == CanonicalText(nodes)
  {
    hide *;
    var ordered := SortBy(NodeLe, nodes);
    SortedAreComplete(nodes);
    var keys := FieldOrder();
    var lines: seq<string> := [];
    LinesFrom(ordered, keys, 0);
    for i := 0 to |ordered|
      invariant lines == AllLines(ordered[..i], keys)
    {
      var n := ordered[i];
      LinesFrom(ordered, keys, i);
      ghost var before := lines;
      for j := 0 to |keys|
        invariant lines == before + LinesOf(n, keys)[..j]
      {
        assert keys[j] in keys;
        lines := lines + [FieldLine(n, keys[j])];
        assert LinesOf(n, keys)[..j + 1] == LinesOf(n, keys)[..j] + [Line(n, keys[j])];
      }
      assert LinesOf(n, keys)[..|keys|] == LinesOf(n, keys);
    }
    assert ordered[..|ordered|] == ordered;
    text := Text.Join('\n', lines);
    TextIs(nodes);
  }

  lemma LinesFrom(nodes: seq<Node>, keys: seq<string>, i: nat)
    ensures AllLines(nodes[..0], keys) == []
    ensures i < |nodes| ==> AllLines(nodes[..i + 1], keys) == AllLines(nodes[..i], keys) + LinesOf(nodes[i], keys)
  {
    if i < |nodes| { assert Init(nodes[..i + 1]) == nodes[..i]; }
  }

  lemma TextIs(nodes: seq<Node>)
    ensures CanonicalText(nodes) == Text.Join('\n', AllLines(SortBy(NodeLe, nodes), FieldOrder()))
  {
    hide SortBy, FieldOrder, AllLines;
  }

  lemma SortedAreComplete(nodes: seq<Node>)
    requires forall k :: 0 <= k < |nodes| ==> Complete(nodes[k])
    ensures forall n, k :: n in SortBy(NodeLe, nodes) && k in FieldOrder() ==> k in n.fields
  {
    hide Complete, SortBy, FieldOrder;
    SameElements(SortBy(NodeLe, nodes), nodes);
    FieldOrderFacts();
    forall n, k | n in SortBy(NodeLe, nodes) && k in FieldOrder() ensures k in n.fields {
      assert n in nodes;
      CompleteHas(n, k);
    }
  }

  lemma CompleteHas(n: Node, k: string)
    requires Complete(n) && k in NODE_FIELDS
    ensures k in n.fields
  {
  }

  /** The body of the inner loop, on a field that is there. */
  function FieldLine(n: Node, k: string): string
    requires k in n.fields
    ensures FieldLine(n, k) == Line(n, k)
  {
    var v := n.fields[k];
    k + "=" + (match v case Bool(b) => (if b then "true" else "false") case Str(s) => s)
  }

  // ----- the text determines the rendered nodes -----

  ghost predicate OneLine(n: Node) {
    forall k :: k in NODE_FIELDS ==> '\n' !in FieldText(n, k)
  }

  ghost predicate SameText(a: Node, b: Node) {
    forall k :: k in NODE_FIELDS ==> FieldText(a, k) == FieldText(b, k)
  }

  lemma FieldNamesAreClean(k: string)
    requires k in NODE_FIELDS
    ensures '\n' !in k && k != ""
  {
    var i :| 0 <= i < |NODE_FIELDS| && NODE_FIELDS[i] == k;
    assert i == 0 || i == 1 || i == 2 || i == 3 || i == 4 || i == 5;
  }

  /** The six field names, in some order. */
  ghost predicate FieldKeys(keys: seq<string>) {
    && |keys| == 6 && (forall k :: k in keys <==> k in NODE_FIELDS)
    && forall k :: k in keys ==> '\n' !in k && k != ""
  }

  lemma FieldOrderFacts()
    ensures FieldKeys(FieldOrder())
  {
    hide Sorted, SortBy;
    SortedFacts(NODE_FIELDS);
    forall k | k in FieldOrder() ensures '\n' !in k && k != "" { FieldNamesAreClean(k); }
  }

  lemma SameLine(a: Node, b: Node, k: string)
    ensures Line(a, k) == Line(b, k) <==> FieldText(a, k) == FieldText(b, k)
  {
    assert Line(a, k)[|k| + 1..] == FieldText(a, k) && Line(b, k)[|k| + 1..] == FieldText(b, k);
  }

  lemma SameLines(a: Node, b: Node, keys: seq<string>)
    requires FieldKeys(keys)
    ensures LinesOf(a, keys) == LinesOf(b, keys) <==> SameText(a, b)
  {
    hide Line, FieldText;
    if LinesOf(a, keys) == LinesOf(b, keys) {
      forall k | k in NODE_FIELDS ensures FieldText(a, k) == FieldText(b, k) {
        assert k in keys;
        var i :| 0 <= i < |keys| && keys[i] == k;
        assert LinesOf(a, keys)[i] == LinesOf(b, keys)[i];
        SameLine(a, b, k);
      }
    }
    if SameText(a, b) {
      forall i | 0 <= i < |keys| ensures LinesOf(a, keys)[i] == LinesOf(b, keys)[i] {
        assert keys[i] in keys;
        SameLine(a, b, keys[i]);
      }
    }
  }

  predicate CleanLine(line: string) {
    '\n' !in line && line != ""
  }

  lemma {:induction false} AllLinesClean(nodes: seq<Node>, keys: seq<string>)
    requires FieldKeys(keys) && forall k :: 0 <= k < |nodes| ==> OneLine(nodes[k])
    ensures |AllLines(nodes, keys)| == 6 * |nodes|
    ensures forall line :: line in AllLines(nodes, keys) ==> CleanLine(line)
  {
    if nodes != [] {
      AllLinesClean(Init(nodes), keys);
      LinesClean(Last(nodes), keys);
    }
  }

  lemma LinesClean(n: Node, keys: seq<string>)
    requires FieldKeys(keys) && OneLine(n)
    ensures forall line :: line in LinesOf(n, keys) ==> CleanLine(line)
  {
    forall i | 0 <= i < |keys| ensures CleanLine(LinesOf(n, keys)[i]) { assert keys[i] in keys; }
  }

  /** Equal line lists come from lists of nodes that agree, position by position, in every rendered field. */
  lemma {:induction false} EqualLines(a: seq<Node>, b: seq<Node>, keys: seq<string>)
    requires FieldKeys(keys) && AllLines(a, keys) == AllLines(b, keys)
    ensures |a| == |b| && forall k :: 0 <= k < |a| ==> SameText(a[k], b[k])
  {
    hide FieldKeys, SameText;
    LineCount(a, keys);
    LineCount(b, keys);
    if a != [] {
      var lines := AllLines(a, keys);
      assert lines[..|lines| - 6] == AllLines(Init(a), keys) == AllLines(Init(b), keys);
      assert lines[|lines| - 6..] == LinesOf(Last(a), keys) == LinesOf(Last(b), keys);
      SameLines(Last(a), Last(b), keys);
      EqualLines(Init(a), Init(b), keys);
    }
  }

  lemma {:induction false} LineCount(nodes: seq<Node>, keys: seq<string>)
    requires FieldKeys(keys)
    ensures |AllLines(nodes, keys)| == 6 * |nodes| && |keys| == 6
  {
    if nodes != [] { LineCount(Init(nodes), keys); }
  }

  lemma JoinedLinesAreUnique(a: seq<string>, b: seq<string>)
    requires (forall line :: line in a ==> CleanLine(line)) && forall line :: line in b ==> CleanLine(line)
    requires Text.Join('\n', a) == Text.Join('\n', b)
    ensures a == b
  {
    forall k | 0 <= k < |a| ensures CleanLine(a[k]) { assert a[k] in a; }
    forall k | 0 <= k < |b| ensures CleanLine(b[k]) { assert b[k] in b; }
    if a != [] && b != [] {
      Text.SplitJoin('\n', a);
      Text.SplitJoin('\n', b);
    }
  }

  /**
   * When no rendered value holds a newline, the text determines the ordered list of node field values: two trees
   * have the same text exactly when their ordered nodes agree in every rendered field.
   */
  lemma TextDeterminesNodes(a: seq<Node>, b: seq<Node>)
    requires forall k :: 0 <= k < |a| ==> OneLine(a[k])
    requires forall k :: 0 <= k < |b| ==> OneLine(b[k])
    ensures CanonicalText(a) == CanonicalText(b) <==>
              var x, y := SortBy(NodeLe, a), SortBy(NodeLe, b);
              |x| == |y| && forall k :: 0 <= k < |x| ==> SameText(x[k], y[k])
  {
    hide FieldOrder, OneLine, SameText, SortBy, AllLines, FieldKeys, CleanLine;
    var x, y, keys := SortBy(NodeLe, a), SortBy(NodeLe, b), FieldOrder();
    FieldOrderFacts();
    SameElements(x, a);
    SameElements(y, b);
    forall k | 0 <= k < |x| ensures OneLine(x[k]) { assert x[k] in a; }
    forall k | 0 <= k < |y| ensures OneLine(y[k]) { assert y[k] in b; }
    AllLinesClean(x, keys);
    AllLinesClean(y, keys);
    if CanonicalText(a) == CanonicalText(b) {
      JoinedLinesAreUnique(AllLines(x, keys), AllLines(y, keys));
      EqualLines(x, y, keys);
    }
    if |x| == |y| && forall k :: 0 <= k < |x| ==> SameText(x[k], y[k]) {
      AgreeingLines(x, y, keys);
    }
  }

  lemma {:induction false} AgreeingLines(a: seq<Node>, b: seq<Node>, keys: seq<string>)
    requires FieldKeys(keys) && |a| == |b| && forall k :: 0 <= k < |a| ==> SameText(a[k], b[k])
    ensures AllLines(a, keys) == AllLines(b, keys)
  {
    hide FieldKeys, SameText;
    if a != [] {
      AgreeingLines(Init(a), Init(b), keys);
      SameLines(Last(a), Last(b), keys);
    }
  }

  // ----- listing order -----

  lemma NodeOrder()
    ensures TotalPreorder(NodeLe) && TotalPreorder(KeyLe) && Antisymmetric(KeyLe)
  {
  }

  lemma SortedKeys(a: seq<Node>)
    ensures SortedBy(KeyLe, Map(KeyOf, SortBy(NodeLe, a)))
  {
    NodeOrder();
    SortBySorts(NodeLe, a);
    var x := SortBy(NodeLe, a);
    forall i, j | 0 <= i < j < |x| ensures KeyLe(KeyOf(x[i]), KeyOf(x[j])) { assert NodeLe(x[i], x[j]); }
  }

  /** Permuted lists have the same keys once sorted. */
  lemma SameKeys(a: seq<Node>, b: seq<Node>)
    requires multiset(a) == multiset(b)
    ensures Map(KeyOf, SortBy(NodeLe, a)) == Map(KeyOf, SortBy(NodeLe, b))
  {
    SortedKeys(a);
    SortedKeys(b);
    MapMultiset(KeyOf, SortBy(NodeLe, a), SortBy(NodeLe, b));
    NodeOrder();
    SortedUnique(KeyLe, Map(KeyOf, SortBy(NodeLe, a)), Map(KeyOf, SortBy(NodeLe, b)));
  }

  /** Nodes that share depth and index are rendered alike; in particular, no two nodes share them. */
  ghost predicate KeysTellText(nodes: seq<Node>) {
    forall i, j :: 0 <= i < j < |nodes| && KeyOf(nodes[i]) == KeyOf(nodes[j]) ==> SameText(nodes[i], nodes[j])
  }

  lemma PermutationGivesSameText(a: seq<Node>, b: seq<Node>)
    requires KeysTellText(a) && multiset(a) == multiset(b)
    ensures CanonicalText(a) == CanonicalText(b)
  {
    hide SortBy, SameText, KeyOf, FieldOrder;
    var x, y := SortBy(NodeLe, a), SortBy(NodeLe, b);
    SameKeys(a, b);
    SameElements(x, a);
    SameElements(y, b);
    SameElements(a, b);
    assert |x| == |y| by { assert |Map(KeyOf, x)| == |Map(KeyOf, y)|; }
    forall k | 0 <= k < |x| ensures SameText(x[k], y[k]) {
      assert Map(KeyOf, x)[k] == Map(KeyOf, y)[k];
      assert x[k] in a && y[k] in a;
      SameKeySameText(a, x[k], y[k]);
    }
    FieldOrderFacts();
    AgreeingLines(x, y, FieldOrder());
  }

  lemma SameKeySameText(nodes: seq<Node>, m: Node, n: Node)
    requires KeysTellText(nodes) && m in nodes && n in nodes && KeyOf(m) == KeyOf(n)
    ensures SameText(m, n)
  {
    hide KeyOf;
    var i :| 0 <= i < |nodes| && nodes[i] == m;
    var j :| 0 <= j < |nodes| && nodes[j] == n;
    if j < i { assert SameText(nodes[j], nodes[i]); }
  }

  function WithKey(nodes: seq<Node>, key: Key): seq<Node> {
    if nodes == [] then [] else (if KeyOf(nodes[0]) == key then [nodes[0]] else []) + WithKey(nodes[1..], key)
  }

  lemma WithKeyStep(n: Node, rest: seq<Node>, key: Key)
    ensures WithKey([n] + rest, key) == (if KeyOf(n) == key then [n] else []) + WithKey(rest, key)
  {
    assert ([n] + rest)[1..] == rest;
  }

  lemma SwapOne<T>(a: seq<T>, b: seq<T>, rest: seq<T>)
    requires a == [] || b == []
    ensures a + (b + rest) == b + (a + rest)
  {
  }

  /** Taking the new node past one of another key. */
  lemma PassedOver(n: Node, first: Node, tail: seq<Node>, inserted: seq<Node>, key: Key)
    requires KeyOf(n) != KeyOf(first) && WithKey(inserted, key) == WithKey([n] + tail, key)
    ensures WithKey([first] + inserted, key) == WithKey([n] + ([first] + tail), key)
  {
    hide WithKey, KeyOf;
    WithKeyStep(first, inserted, key);
    WithKeyStep(n, tail, key);
    WithKeyStep(first, tail, key);
    WithKeyStep(n, [first] + tail, key);
    SwapOne(if KeyOf(n) == key then [n] else [], if KeyOf(first) == key then [first] else [], WithKey(tail, key));
  }

  lemma {:induction false} InsertIsStable(n: Node, nodes: seq<Node>, key: Key)
    ensures WithKey(Insert(NodeLe, n, nodes), key) == WithKey([n] + nodes, key)
  {
    hide WithKey;
    if nodes == [] {
      assert [n] + nodes == [n];
    } else if !NodeLe(n, nodes[0]) {
      InsertIsStable(n, nodes[1..], key);
      PassedOver(n, nodes[0], nodes[1..], Insert(NodeLe, n, nodes[1..]), key);
      assert [nodes[0]] + nodes[1..] == nodes;
    }
  }

  /** Sorting keeps nodes of one key in the order they came in. */
  lemma {:induction false} SortIsStable(nodes: seq<Node>, key: Key)
    ensures WithKey(SortBy(NodeLe, nodes), key) == WithKey(nodes, key)
  {
    if nodes != [] {
      var sorted := SortBy(NodeLe, nodes[1..]);
      SortIsStable(nodes[1..], key);
      InsertIsStable(nodes[0], sorted, key);
      assert ([nodes[0]] + sorted)[1..] == sorted;
    }
  }

  lemma {:induction false} AgreeWithKey(a: seq<Node>, b: seq<Node>, key: Key)
    requires |a| == |b| && forall k :: 0 <= k < |a| ==> KeyOf(a[k]) == KeyOf(b[k]) && SameText(a[k], b[k])
    ensures |WithKey(a, key)| == |WithKey(b, key)|
    ensures forall k :: 0 <= k < |WithKey(a, key)| ==> SameText(WithKey(a, key)[k], WithKey(b, key)[k])
  {
    hide SameText;
    if a != [] { AgreeWithKey(a[1..], b[1..], key); }
  }

  lemma {:induction false} WithKeyAt(nodes: seq<Node>, i: nat)
    requires i < |nodes|
    ensures var before := WithKey(nodes[..i], KeyOf(nodes[i]));
            |before| < |WithKey(nodes, KeyOf(nodes[i]))| && WithKey(nodes, KeyOf(nodes[i]))[|before|] == nodes[i]
  {
    if i > 0 {
      WithKeyAt(nodes[1..], i - 1);
      assert nodes[..i][1..] == nodes[1..][..i - 1];
    }
  }

  /** Swapping two nodes of one key that are rendered differently changes the text. */
  lemma SwapChangesText(nodes: seq<Node>, i: nat, j: nat)
    requires forall k :: 0 <= k < |nodes| ==> OneLine(nodes[k])
    requires i < j < |nodes| && KeyOf(nodes[i]) == KeyOf(nodes[j]) && !SameText(nodes[i], nodes[j])
    ensures var swapped := nodes[i := nodes[j]][j := nodes[i]];
            multiset(swapped) == multiset(nodes) && CanonicalText(swapped) != CanonicalText(nodes)
  {
    hide OneLine, SameText, SortBy, KeyOf, CanonicalText;
    var swapped := nodes[i := nodes[j]][j := nodes[i]];
    assert swapped[..i] == nodes[..i];
    if CanonicalText(swapped) == CanonicalText(nodes) {
      var key := KeyOf(nodes[i]);
      TextDeterminesNodes(nodes, swapped);
      SameKeys(nodes, swapped);
      var x, y := SortBy(NodeLe, nodes), SortBy(NodeLe, swapped);
      forall k | 0 <= k < |x| ensures KeyOf(x[k]) == KeyOf(y[k]) { assert Map(KeyOf, x)[k] == Map(KeyOf, y)[k]; }
      AgreeWithKey(x, y, key);
      SortIsStable(nodes, key);
      SortIsStable(swapped, key);
      WithKeyAt(nodes, i);
      WithKeyAt(swapped, i);
    }
  }

  ghost predicate OrderFree(nodes: seq<Node>) {
    forall b :: multiset(b) == multiset(nodes) ==> CanonicalText(b) == CanonicalText(nodes)
  }

  /**
   * With newline-free values, the text is the same for every listing of the nodes exactly when nodes that share
   * depth and index are rendered alike; distinct (depth, index) pairs are enough.
   */
  lemma OrderFreeIffKeysTellText(nodes: seq<Node>)
    requires forall k :: 0 <= k < |nodes| ==> OneLine(nodes[k])
    ensures OrderFree(nodes) <==> KeysTellText(nodes)
  {
    hide CanonicalText, SameText, OneLine, KeyOf;
    if KeysTellText(nodes) {
      forall b | multiset(b) == multiset(nodes) ensures CanonicalText(b) == CanonicalText(nodes) {
        PermutationGivesSameText(nodes, b);
      }
    } else {
      var i, j :| 0 <= i < j < |nodes| && KeyOf(nodes[i]) == KeyOf(nodes[j]) && !SameText(nodes[i], nodes[j]);
      SwapChangesText(nodes, i, j);
    }
  }

  function WithField(n: Node, k: string, v: Value): Node {
    n.(fields := n.fields[k := v])
  }

  lemma OneSorted(n: Node)
    ensures SortBy(NodeLe, [n]) == [n]
  {
  }

  lemma OneLines(n: Node, keys: seq<string>)
    ensures AllLines([n], keys) == LinesOf(n, keys)
  {
    hide LinesOf;
    assert Init([n]) == [] && AllLines([], keys) == [] && [] + LinesOf(n, keys) == LinesOf(n, keys);
  }

  lemma OneNode(n: Node)
    ensures CanonicalText([n]) == Text.Join('\n', LinesOf(n, FieldOrder()))
  {
    hide FieldOrder, LinesOf, AllLines, SortBy, Text.Join;
    OneSorted(n);
    OneLines(n, FieldOrder());
  }

  /** A boolean and the string that it is rendered as give different trees of the same text. */
  lemma BooleanLooksLikeString(n: Node, k: string, b: bool)
    ensures var flagged, spelled := WithField(n, k, Bool(b)), WithField(n, k, Str(if b then "true" else "false"));
            flagged != spelled && CanonicalText([flagged]) == CanonicalText([spelled])
  {
    hide CanonicalText, FieldOrder;
    var flagged, spelled := WithField(n, k, Bool(b)), WithField(n, k, Str(if b then "true" else "false"));
    assert flagged.fields[k] != spelled.fields[k];
    OneNode(flagged);
    OneNode(spelled);
    assert LinesOf(flagged, FieldOrder()) == LinesOf(spelled, FieldOrder());
  }
}
