/** The canonical text of a UI tree written out: the six lines of a node, and the order of the nodes. */
module TreeLaws {
  import opened Common
  import opened Ordering
  import opened CanonicalTree
  import Text

  /** What a field shows: a string as it is, a boolean as a word. */
  ghost predicate Shows(n: Node, k: string, text: string) {
    k in n.fields && ((n.fields[k] == Str(text)) || (n.fields[k] == Bool(true) && text == "true")
                      || (n.fields[k] == Bool(false) && text == "false"))
  }

  function Entry(name: string, text: string): string {
    name + "=" + text
  }

  /** The six lines of one node, in the order of their names. */
  function SixLines(bounds: string, name: string, clickable: string, description: string, id: string, text: string)
    : seq<string>
  {
    [Entry("bounds", bounds), Entry("class", name), Entry("clickable", clickable), Entry("contentDesc", description),
     Entry("resourceId", id), Entry("text", text)]
  }

  const SIX := ["bounds", "class", "clickable", "contentDesc", "resourceId", "text"]

  lemma SixAreSorted()
    ensures SortedBy(LexLe, SIX) && TellsApart(LexLe, SIX)
  {
    assert LexLe(SIX[0], SIX[1]) && LexLe(SIX[1], SIX[2]) && LexLe(SIX[2], SIX[3]) && LexLe(SIX[3], SIX[4])
        && LexLe(SIX[4], SIX[5]) by { SixPairs(); }
    LexIsTotalOrder();
    ChainIsSorted();
  }

  lemma SixPairs()
    ensures LexLe("bounds", "class") && LexLe("class", "clickable") && LexLe("clickable", "contentDesc")
    ensures LexLe("contentDesc", "resourceId") && LexLe("resourceId", "text")
  {
    assert "class"[0] == 'c' && "clickable"[0] == 'c' && "class"[1] == 'l' && "clickable"[1] == 'l';
    DiffersLex("bounds", "class", 0);
    DiffersLex("class", "clickable", 2) by { assert "class"[..2] == "cl" == "clickable"[..2]; }
    DiffersLex("clickable", "contentDesc", 1) by { assert "clickable"[..1] == "c" == "contentDesc"[..1]; }
    DiffersLex("contentDesc", "resourceId", 0);
    DiffersLex("resourceId", "text", 0);
  }

  lemma ChainIsSorted()
    requires LexLe(SIX[0], SIX[1]) && LexLe(SIX[1], SIX[2]) && LexLe(SIX[2], SIX[3]) && LexLe(SIX[3], SIX[4])
    requires LexLe(SIX[4], SIX[5]) && TotalPreorder(LexLe)
    ensures SortedBy(LexLe, SIX)
  {
    hide LexLe;
    forall i, j | 0 <= i < j < 6 ensures LexLe(SIX[i], SIX[j]) { Chained(i, j); }
  }

  lemma {:induction false} Chained(i: nat, j: nat)
    requires LexLe(SIX[0], SIX[1]) && LexLe(SIX[1], SIX[2]) && LexLe(SIX[2], SIX[3]) && LexLe(SIX[3], SIX[4])
    requires LexLe(SIX[4], SIX[5]) && TotalPreorder(LexLe) && i < j < 6
    ensures LexLe(SIX[i], SIX[j])
    decreases j
  {
    hide LexLe;
    if i < j - 1 { Chained(i, j - 1); }
  }

  lemma SameNames()
    ensures multiset(NODE_FIELDS) == multiset(SIX)
  {
    assert NODE_FIELDS == ["class", "resourceId", "text", "contentDesc", "bounds", "clickable"];
  }

  lemma OrderLaw()
    ensures FieldOrder() == SIX
  {
    SixAreSorted();
    SameNames();
    LexIsTotalOrder();
    SortBySorts(LexLe, NODE_FIELDS);
    SortedUnique(LexLe, SIX, FieldOrder());
  }

  lemma ShownLaw(n: Node, k: string, text: string)
    requires Shows(n, k, text)
    ensures Line(n, k) == Entry(k, text)
  {
  }

  /** One node gives its six lines, each with the name of a field and what it shows. */
  lemma LinesLaw(n: Node, bounds: string, name: string, clickable: string, description: string, id: string,
                 text: string)
    requires Shows(n, "bounds", bounds) && Shows(n, "class", name) && Shows(n, "clickable", clickable)
    requires Shows(n, "contentDesc", description) && Shows(n, "resourceId", id) && Shows(n, "text", text)
    ensures LinesOf(n, FieldOrder()) == SixLines(bounds, name, clickable, description, id, text)
  {
    hide FieldOrder, Shows, Line, Entry;
    OrderLaw();
    ShownLaw(n, "bounds", bounds);
    ShownLaw(n, "class", name);
    ShownLaw(n, "clickable", clickable);
    ShownLaw(n, "contentDesc", description);
    ShownLaw(n, "resourceId", id);
    ShownLaw(n, "text", text);
    assert LinesOf(n, SIX) == [Line(n, SIX[0]), Line(n, SIX[1]), Line(n, SIX[2]), Line(n, SIX[3]), Line(n, SIX[4]),
                               Line(n, SIX[5])];
  }

  /** By depth, and by index within a depth. */
  predicate InOrder(s: seq<Node>) {
    forall i, j :: 0 <= i < j < |s| ==>
      s[i].depth < s[j].depth || (s[i].depth == s[j].depth && s[i].index <= s[j].index)
  }

  /** The nodes are put in order, and the lines of all of them are joined by line feeds. */
  lemma TextLaw(nodes: seq<Node>)
    ensures InOrder(SortBy(NodeLe, nodes)) && multiset(SortBy(NodeLe, nodes)) == multiset(nodes)
    ensures CanonicalText(nodes) == Text.Join('\n', AllLines(SortBy(NodeLe, nodes), FieldOrder()))
  {
    hide SortBy, NodeLe, FieldOrder, AllLines, Text.Join;
    NodeOrder();
    SortBySorts(NodeLe, nodes);
    SortedInOrder(SortBy(NodeLe, nodes));
  }

  lemma SortedInOrder(s: seq<Node>)
    requires SortedBy(NodeLe, s)
    ensures InOrder(s)
  {
    forall i, j | 0 <= i < j < |s|
      ensures s[i].depth < s[j].depth || (s[i].depth == s[j].depth && s[i].index <= s[j].index)
    {
      assert NodeLe(s[i], s[j]);
    }
  }

  lemma {:induction false} BlocksOfLines(nodes: seq<Node>, i: nat, k: nat)
    requires i < |nodes| && k < 6
    ensures |AllLines(nodes, SIX)| == 6 * |nodes|
    ensures AllLines(nodes, SIX)[6 * i + k] == LinesOf(nodes[i], SIX)[k]
  {
    if |nodes| == 1 {
      assert AllLines(Init(nodes), SIX) == [];
    } else {
      BlocksOfLines(Init(nodes), if i < |nodes| - 1 then i else 0, k);
    }
  }

  /** Line k of the i-th node in order is line 6 i + k of the text. */
  lemma LineAtLaw(nodes: seq<Node>, i: nat, k: nat)
    requires i < |nodes| && k < 6
    ensures |AllLines(nodes, FieldOrder())| == 6 * |nodes|
    ensures AllLines(nodes, FieldOrder())[6 * i + k] == LinesOf(nodes[i], FieldOrder())[k]
  {
    OrderLaw();
    BlocksOfLines(nodes, i, k);
  }
}
