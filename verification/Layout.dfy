/** The layout flattener of the lab ADB driver (edge/gateway/src/cloudctl_edge/adb_debug.py, `_parse_layout`). */
module Layout {
  import opened Common

  const MAX_LAYOUT_NODES := 2048

  type Attributes = map<string, string>

  datatype Element = Element(tag: string, attributes: Attributes, children: seq<Element>)

  datatype Node = Node(
    id: string, className: string, bounds: string, depth: nat, clickable: bool, centerX: int, centerY: int,
    resourceId: Option<string>, text: Option<string>, description: Option<string>)

  /** Left, top, right and bottom, when the text matches the bounds pattern. */
  type BoundsReader = string -> Option<(nat, nat, nat, nat)>

  function Get(a: Attributes, key: string, otherwise: string): string {
    if key in a then a[key] else otherwise
  }

  function Decimal(n: nat): string {
    if n < 10 then [('0' as int + n) as char] else Decimal(n / 10) + [('0' as int + n % 10) as char]
  }

  /** An empty or absent attribute adds no field; others are cut to 500 characters. */
  function Field(a: Attributes, key: string): Option<string> {
    var value := Get(a, key, "");
    if value == "" then None else Some(if |value| <= 500 then value else value[..500])
  }

  predicate BoundsOk(read: BoundsReader, a: Attributes) {
    read(Get(a, "bounds", "")).Some?
  }

  function NodeOf(read: BoundsReader, a: Attributes, index: nat, depth: nat): Node
    requires BoundsOk(read, a)
  {
    var bounds := Get(a, "bounds", "");
    var (left, top, right, bottom) := read(bounds).value;
    Node(if Get(a, "resource-id", "") != "" then a["resource-id"] else "node-" + Decimal(index),
         Get(a, "class", "android.view.View"), bounds, depth, Get(a, "clickable", "") == "true",
         (left + right) / 2, (top + bottom) / 2,
         Field(a, "resource-id"), Field(a, "text"), Field(a, "content-desc"))
  }

  // ----- what flattening should give -----

  /** The document without its wrappers: nodes directly under nodes. */
  datatype Tree = Tree(attributes: Attributes, kids: seq<Tree>)

  function Splice(e: Element): seq<Tree> {
    if e.tag == "node" then [Tree(e.attributes, SpliceAll(e.children))] else SpliceAll(e.children)
  }

  function SpliceAll(es: seq<Element>): seq<Tree> {
    if es == [] then [] else SpliceAll(Init(es)) + Splice(Last(es))
  }

  /** Preorder, each node with the number of nodes around it. */
  function Label(t: Tree, depth: nat): seq<(Attributes, nat)> {
    [(t.attributes, depth)] + LabelAll(t.kids, depth + 1)
  }

  function LabelAll(ts: seq<Tree>, depth: nat): seq<(Attributes, nat)> {
    if ts == [] then [] else LabelAll(Init(ts), depth) + Label(Last(ts), depth)
  }

  lemma LabelLast(ts: seq<Tree>, depth: nat)
    requires ts != []
    ensures LabelAll(ts, depth) == LabelAll(Init(ts), depth) + Label(Last(ts), depth)
  {
  }

  lemma {:induction false} LabelConcat(a: seq<Tree>, b: seq<Tree>, depth: nat)
    ensures LabelAll(a + b, depth) == LabelAll(a, depth) + LabelAll(b, depth)
  {
    if b == [] {
      assert a + b == a;
    } else {
      hide LabelAll, Label;
      assert Init(a + b) == a + Init(b);
      LabelConcat(a, Init(b), depth);
      LabelLast(b, depth);
      LabelLast(a + b, depth);
    }
  }

  lemma LabelOne(t: Tree, depth: nat)
    ensures LabelAll([t], depth) == Label(t, depth)
  {
    assert Init([t]) == [];
  }

  /** The rows of a labelled list, numbered from `start`. */
  function Rows(read: BoundsReader, list: seq<(Attributes, nat)>, start: nat): seq<Node>
    requires forall k :: 0 <= k < |list| ==> BoundsOk(read, list[k].0)
  {
    seq(|list|, k requires 0 <= k < |list| => NodeOf(read, list[k].0, start + k, list[k].1))
  }

  predicate AllBounds(read: BoundsReader, list: seq<(Attributes, nat)>) {
    forall k :: 0 <= k < |list| ==> BoundsOk(read, list[k].0)
  }

  /** The last element of the document in preorder is a node. */
  predicate EndsInNode(e: Element) {
    if e.children == [] then e.tag == "node" else EndsInNode(Last(e.children))
  }

  /** With `count` rows already there, every element of e is met with fewer than the limit. */
  predicate Fits(e: Element, depth: nat, count: nat) {
    count + |LabelAll(Splice(e), depth)| - (if EndsInNode(e) then 1 else 0) < MAX_LAYOUT_NODES
  }

  predicate Readable(read: BoundsReader, e: Element, depth: nat, count: nat) {
    Fits(e, depth, count) && AllBounds(read, LabelAll(Splice(e), depth))
  }

  lemma {:induction false} EndingNodeCounts(e: Element, depth: nat)
    ensures EndsInNode(e) ==> |LabelAll(Splice(e), depth)| > 0
    decreases e
  {
    if e.children == [] {
      if e.tag == "node" { LabelOne(Tree(e.attributes, SpliceAll([])), depth); }
    } else {
      var inner := if e.tag == "node" then depth + 1 else depth;
      EndingNodeCounts(Last(e.children), inner);
      LabelConcat(SpliceAll(Init(e.children)), Splice(Last(e.children)), inner);
      if e.tag == "node" { LabelOne(Tree(e.attributes, SpliceAll(e.children)), depth); }
    }
  }

  // ----- the visit -----

  class LayoutReader {
    const read: BoundsReader
    var nodes: seq<Node>

    constructor (read: BoundsReader)
      ensures this.read == read && nodes == []
    {
      this.read, nodes := read, [];
    }

    /** False stands for the raised error; what was appended before it is dropped by the caller. */
    method Visit(e: Element, depth: nat) returns (ok: bool)
      modifies this`nodes
      ensures ok <==> Readable(read, e, depth, |old(nodes)|)
      ensures ok ==> nodes == old(nodes) + Rows(read, LabelAll(Splice(e), depth), |old(nodes)|)
      decreases e
    {
      hide Readable, LabelAll, Splice, Rows, AllBounds;
      ghost var before := nodes;
      if |nodes| >= MAX_LAYOUT_NODES {
        OverLimit(read, e, depth, |nodes|);
        return false;
      }
      var childDepth := depth;
      ghost var head: seq<(Attributes, nat)> := [];
      if e.tag == "node" {
        if read(Get(e.attributes, "bounds", "")).None? {
          BadBounds(read, e, depth, |nodes|);
          return false;
        }
        nodes := nodes + [NodeOf(read, e.attributes, |nodes|, depth)];
        childDepth := depth + 1;
        head := [(e.attributes, depth)];
      }
      HeadRows(read, e, depth, before, head);
      for k := 0 to |e.children|
        invariant Partial(read, e, depth, childDepth, before, head, k, nodes)
      {
        ghost var sofar := nodes;
        ok := Visit(e.children[k], childDepth);
        if !ok {
          ChildFails(read, e, depth, childDepth, before, head, k, sofar);
          return false;
        }
        ChildSucceeds(read, e, depth, childDepth, before, head, k, sofar, nodes);
      }
      ok := true;
      AllChildren(read, e, depth, childDepth, before, head, nodes);
    }
  }

  /** The element fits, given the number of rows after it. */
  ghost predicate FitsBefore(e: Element, depth: nat, after: nat) {
    var n := |LabelAll(Splice(e), depth)|;
    n <= after && Fits(e, depth, after - n)
  }

  /** The rows after the first k children. */
  ghost predicate Partial(read: BoundsReader, e: Element, depth: nat, inner: nat, before: seq<Node>,
                          head: seq<(Attributes, nat)>, k: nat, nodes: seq<Node>) {
    && k <= |e.children| && |before| < MAX_LAYOUT_NODES
    && inner == (if e.tag == "node" then depth + 1 else depth)
    && head == (if e.tag == "node" then [(e.attributes, depth)] else [])
    && var list := head + LabelAll(SpliceAll(e.children[..k]), inner);
       && AllBounds(read, list) && nodes == before + Rows(read, list, |before|)
       && (k > 0 ==> FitsBefore(e.children[k - 1], inner, |nodes|))
  }

  lemma ElementList(e: Element, depth: nat)
    ensures var inner := if e.tag == "node" then depth + 1 else depth;
            var head := if e.tag == "node" then [(e.attributes, depth)] else [];
            LabelAll(Splice(e), depth) == head + LabelAll(SpliceAll(e.children), inner)
  {
    if e.tag == "node" { LabelOne(Tree(e.attributes, SpliceAll(e.children)), depth); }
  }

  lemma OverLimit(read: BoundsReader, e: Element, depth: nat, count: nat)
    requires count >= MAX_LAYOUT_NODES
    ensures !Readable(read, e, depth, count)
  {
    EndingNodeCounts(e, depth);
  }

  lemma BadBounds(read: BoundsReader, e: Element, depth: nat, count: nat)
    requires e.tag == "node" && !BoundsOk(read, e.attributes)
    ensures !Readable(read, e, depth, count)
  {
    ElementList(e, depth);
    assert LabelAll(Splice(e), depth)[0].0 == e.attributes;
  }

  lemma HeadRows(read: BoundsReader, e: Element, depth: nat, before: seq<Node>, head: seq<(Attributes, nat)>)
    requires |before| < MAX_LAYOUT_NODES
    requires head == (if e.tag == "node" then [(e.attributes, depth)] else [])
    requires e.tag == "node" ==> BoundsOk(read, e.attributes)
    ensures Partial(read, e, depth, if e.tag == "node" then depth + 1 else depth, before, head, 0,
                    if e.tag == "node" then before + [NodeOf(read, e.attributes, |before|, depth)] else before)
  {
    assert e.children[..0] == [];
    assert head + LabelAll([], depth) == head && head + LabelAll([], depth + 1) == head;
  }

  lemma RowsConcat(read: BoundsReader, a: seq<(Attributes, nat)>, b: seq<(Attributes, nat)>, start: nat)
    requires AllBounds(read, a) && AllBounds(read, b)
    ensures AllBounds(read, a + b) && Rows(read, a + b, start) == Rows(read, a, start) + Rows(read, b, start + |a|)
  {
  }

  lemma RowsLength(read: BoundsReader, a: seq<(Attributes, nat)>, start: nat)
    requires AllBounds(read, a)
    ensures |Rows(read, a, start)| == |a|
  {
  }

  lemma ListGrows(e: Element, inner: nat, head: seq<(Attributes, nat)>, k: nat)
    requires k < |e.children|
    ensures head + LabelAll(SpliceAll(e.children[..k + 1]), inner)
         == head + LabelAll(SpliceAll(e.children[..k]), inner) + LabelAll(Splice(e.children[k]), inner)
  {
    assert Init(e.children[..k + 1]) == e.children[..k];
    LabelConcat(SpliceAll(e.children[..k]), Splice(e.children[k]), inner);
  }

  lemma ChildSucceeds(read: BoundsReader, e: Element, depth: nat, inner: nat, before: seq<Node>,
                      head: seq<(Attributes, nat)>, k: nat,
                      sofar: seq<Node>, nodes: seq<Node>)
    requires Partial(read, e, depth, inner, before, head, k, sofar) && k < |e.children|
    requires Readable(read, e.children[k], inner, |sofar|)
    requires nodes == sofar + Rows(read, LabelAll(Splice(e.children[k]), inner), |sofar|)
    ensures Partial(read, e, depth, inner, before, head, k + 1, nodes)
  {
    hide LabelAll, Splice, SpliceAll, BoundsOk, NodeOf, AllBounds, Rows, Fits;
    var list := head + LabelAll(SpliceAll(e.children[..k]), inner);
    var more := LabelAll(Splice(e.children[k]), inner);
    ListGrows(e, inner, head, k);
    RowsConcat(read, list, more, |before|);
    RowsLength(read, list, |before|);
    RowsLength(read, more, |sofar|);
    assert nodes == before + Rows(read, list + more, |before|);
    assert |nodes| - |more| == |sofar|;
  }

  /** The list of a document begins with the list of its first children. */
  lemma {:induction false} ListContains(e: Element, depth: nat, inner: nat, head: seq<(Attributes, nat)>, k: nat)
    requires k <= |e.children|
    requires inner == (if e.tag == "node" then depth + 1 else depth)
    requires head == (if e.tag == "node" then [(e.attributes, depth)] else [])
    ensures head + LabelAll(SpliceAll(e.children[..k]), inner) <= LabelAll(Splice(e), depth)
    decreases |e.children| - k
  {
    if k == |e.children| {
      assert e.children[..k] == e.children;
      ElementList(e, depth);
    } else {
      ListContains(e, depth, inner, head, k + 1);
      ListGrows(e, inner, head, k);
    }
  }

  /** A non-empty rest of the children has at least as many rows as its last element accounts for. */
  lemma {:induction false} RestCounts(e: Element, inner: nat, k: nat)
    requires k < |e.children|
    ensures |LabelAll(SpliceAll(e.children), inner)| >= |LabelAll(SpliceAll(e.children[..k]), inner)|
            + (if EndsInNode(Last(e.children)) then 1 else 0)
    decreases |e.children| - k
  {
    ListGrows(e, inner, [], k);
    assert [] + LabelAll(SpliceAll(e.children[..k + 1]), inner) == LabelAll(SpliceAll(e.children[..k + 1]), inner);
    assert [] + LabelAll(SpliceAll(e.children[..k]), inner) == LabelAll(SpliceAll(e.children[..k]), inner);
    if k == |e.children| - 1 {
      assert e.children[..k + 1] == e.children;
      EndingNodeCounts(e.children[k], inner);
    } else {
      RestCounts(e, inner, k + 1);
    }
  }

  lemma ChildFails(read: BoundsReader, e: Element, depth: nat, inner: nat, before: seq<Node>,
                   head: seq<(Attributes, nat)>, k: nat, sofar: seq<Node>)
    requires Partial(read, e, depth, inner, before, head, k, sofar) && k < |e.children|
    requires !Readable(read, e.children[k], inner, |sofar|)
    ensures !Readable(read, e, depth, |before|)
  {
    hide LabelAll, Splice, SpliceAll, BoundsOk;
    ListContains(e, depth, inner, head, k + 1);
    ListGrows(e, inner, head, k);
    var list := head + LabelAll(SpliceAll(e.children[..k]), inner);
    var child := LabelAll(Splice(e.children[k]), inner);
    var whole := LabelAll(Splice(e), depth);
    if !AllBounds(read, child) {
      var j :| 0 <= j < |child| && !BoundsOk(read, child[j].0);
      assert whole[|list| + j] == child[j];
    } else {
      assert |sofar| == |before| + |list|;
      ElementList(e, depth);
      if k + 1 < |e.children| {
        RestCounts(e, inner, k + 1);
      } else {
        assert e.children[..k + 1] == e.children;
      }
    }
  }

  lemma AllChildren(read: BoundsReader, e: Element, depth: nat, inner: nat, before: seq<Node>,
                    head: seq<(Attributes, nat)>, nodes: seq<Node>)
    requires Partial(read, e, depth, inner, before, head, |e.children|, nodes)
    ensures Readable(read, e, depth, |before|)
    ensures nodes == before + Rows(read, LabelAll(Splice(e), depth), |before|)
  {
    hide LabelAll, Splice, SpliceAll, BoundsOk;
    assert e.children[..|e.children|] == e.children;
    ElementList(e, depth);
    if e.children == [] { NoChildren(e, inner); }
  }

  lemma NoChildren(e: Element, inner: nat)
    requires e.children == []
    ensures LabelAll(SpliceAll(e.children), inner) == []
  {
  }

  /**
   * The returned layout is the preorder of the node elements with other elements spliced out. It is returned
   * exactly when all bounds match and no element is met after 2048 rows; it never has more than 2048 rows.
   */
  method ParseLayout(root: Element, read: BoundsReader) returns (r: Option<seq<Node>>)
    ensures r.Some? <==> Readable(read, root, 0, 0)
    ensures r.Some? ==> r.value == Rows(read, LabelAll(Splice(root), 0), 0) && |r.value| <= MAX_LAYOUT_NODES
  {
    var reader := new LayoutReader(read);
    var ok := reader.Visit(root, 0);
    if !ok { return None; }
    return Some(reader.nodes);
  }

  // ----- the list determines the forest -----

  /** Reads trees whose roots are at `depth` off the front of a labelled list. */
  function Rebuild(list: seq<(Attributes, nat)>, depth: nat): (r: (seq<Tree>, seq<(Attributes, nat)>))
    ensures |r.1| <= |list|
    decreases |list|
  {
    if list == [] || list[0].1 != depth then ([], list)
    else
      var (kids, rest) := Rebuild(list[1..], depth + 1);
      var (siblings, after) := Rebuild(rest, depth);
      ([Tree(list[0].0, kids)] + siblings, after)
  }

  /** Label a forest from the front, as Rebuild reads it. */
  lemma {:induction false} LabelFront(ts: seq<Tree>, depth: nat)
    requires ts != []
    ensures LabelAll(ts, depth) == [(ts[0].attributes, depth)] + LabelAll(ts[0].kids, depth + 1)
            + LabelAll(ts[1..], depth)
  {
    assert ts == [ts[0]] + ts[1..];
    LabelConcat([ts[0]], ts[1..], depth);
    LabelOne(ts[0], depth);
  }

  lemma {:induction false} LabelsStart(ts: seq<Tree>, depth: nat)
    ensures LabelAll(ts, depth) == [] || LabelAll(ts, depth)[0].1 == depth
  {
    if ts != [] { LabelFront(ts, depth); }
  }

  lemma RebuildFirst(list: seq<(Attributes, nat)>, depth: nat, first: Tree, inside: seq<(Attributes, nat)>,
                     rest: seq<(Attributes, nat)>, siblings: seq<Tree>, tail: seq<(Attributes, nat)>)
    requires list == [(first.attributes, depth)] + inside
    requires Rebuild(inside, depth + 1) == (first.kids, rest) && Rebuild(rest, depth) == (siblings, tail)
    ensures Rebuild(list, depth) == ([first] + siblings, tail)
  {
    assert list[1..] == inside;
  }

  lemma RebuildNothing(depth: nat, tail: seq<(Attributes, nat)>)
    requires tail == [] || tail[0].1 < depth
    ensures Rebuild(LabelAll([], depth) + tail, depth) == ([], tail)
  {
    assert LabelAll([], depth) + tail == tail;
  }

  lemma Regroup<T>(x: T, a: seq<T>, b: seq<T>, c: seq<T>)
    ensures [x] + a + b + c == [x] + (a + (b + c))
  {
  }

  lemma {:induction false} RebuildLabels(ts: seq<Tree>, depth: nat, tail: seq<(Attributes, nat)>)
    requires tail == [] || tail[0].1 < depth
    ensures Rebuild(LabelAll(ts, depth) + tail, depth) == (ts, tail)
    decreases ts
  {
    if ts == [] {
      RebuildNothing(depth, tail);
    } else {
      LabelsStart(ts[1..], depth);
      LabelFront(ts, depth);
      hide LabelAll, Rebuild;
      var inside, siblings := LabelAll(ts[0].kids, depth + 1), LabelAll(ts[1..], depth);
      var rest := siblings + tail;
      RebuildLabels(ts[0].kids, depth + 1, rest);
      RebuildLabels(ts[1..], depth, tail);
      Regroup((ts[0].attributes, depth), inside, siblings, tail);
      RebuildFirst(LabelAll(ts, depth) + tail, depth, ts[0], inside + rest, rest, ts[1..], tail);
      assert [ts[0]] + ts[1..] == ts;
    }
  }

  /** The depths in an accepted layout, read with the attributes in order, give back the spliced document. */
  lemma LayoutDeterminesForest(root: Element, read: BoundsReader, nodes: seq<Node>)
    requires Readable(read, root, 0, 0) && nodes == Rows(read, LabelAll(Splice(root), 0), 0)
    ensures var list := LabelAll(Splice(root), 0);
            |nodes| == |list| && Rebuild(seq(|list|, k requires 0 <= k < |list| => (list[k].0, nodes[k].depth)), 0) ==
              (Splice(root), [])
  {
    var list := LabelAll(Splice(root), 0);
    assert list + [] == list;
    assert seq(|list|, k requires 0 <= k < |list| => (list[k].0, nodes[k].depth)) == list;
    RebuildLabels(Splice(root), 0, []);
  }

  /** Two forests with the same labelled list are the same forest. */
  lemma SameListSameForest(a: seq<Tree>, b: seq<Tree>)
    requires LabelAll(a, 0) == LabelAll(b, 0)
    ensures a == b
  {
    RebuildLabels(a, 0, []);
    RebuildLabels(b, 0, []);
  }
}
