/**
 * The layout of a document, without the forest: which elements give a row, in what order and at what depth, when the
 * limit is hit, and what every field of a row holds.
 */
module LayoutLaws {
  import opened Common
  import opened Layout

  // ----- which rows, in what order -----

  function IsNode(e: Element): nat {
    if e.tag == "node" then 1 else 0
  }

  function NodeCount(e: Element): nat {
    IsNode(e) + NodeCounts(e.children)
  }

  function NodeCounts(es: seq<Element>): nat {
    if es == [] then 0 else NodeCounts(Init(es)) + NodeCount(Last(es))
  }

  /** The node elements in document order, each with the number of node elements around it. */
  function Preorder(e: Element, depth: nat): seq<(Attributes, nat)> {
    (if e.tag == "node" then [(e.attributes, depth)] else []) + PreorderAll(e.children, depth + IsNode(e))
  }

  function PreorderAll(es: seq<Element>, depth: nat): seq<(Attributes, nat)> {
    if es == [] then [] else PreorderAll(Init(es), depth) + Preorder(Last(es), depth)
  }

  lemma {:induction false} PreorderLaw(e: Element, depth: nat)
    ensures LabelAll(Splice(e), depth) == Preorder(e, depth) && |Preorder(e, depth)| == NodeCount(e)
    decreases e, 1
  {
    hide LabelAll;
    PreorderAllLaw(e.children, depth + IsNode(e), e);
    if e.tag == "node" { LabelOne(Tree(e.attributes, SpliceAll(e.children)), depth); }
  }

  lemma {:induction false} PreorderAllLaw(es: seq<Element>, depth: nat, e: Element)
    requires es <= e.children
    ensures LabelAll(SpliceAll(es), depth) == PreorderAll(es, depth) && |PreorderAll(es, depth)| == NodeCounts(es)
    decreases e, 0, |es|
  {
    if es == [] {
      NoTrees(depth);
    } else {
      hide LabelAll;
      assert Last(es) in e.children;
      PreorderAllLaw(Init(es), depth, e);
      PreorderLaw(Last(es), depth);
      LabelConcat(SpliceAll(Init(es)), Splice(Last(es)), depth);
    }
  }

  lemma NoTrees(depth: nat)
    ensures LabelAll([], depth) == []
  {
  }

  // ----- the limit -----

  /** With `count` rows there, e and all elements in it are met with fewer than 2048 rows. */
  predicate Met(e: Element, count: nat) {
    count < 2048 && AllMet(e.children, count + IsNode(e))
  }

  predicate AllMet(es: seq<Element>, count: nat) {
    es == [] || (AllMet(Init(es), count) && Met(Last(es), count + NodeCounts(Init(es))))
  }

  lemma {:induction false} EndCounts(e: Element)
    ensures EndsInNode(e) ==> NodeCount(e) >= 1
    decreases e
  {
    if e.children != [] { EndCounts(Last(e.children)); }
  }

  lemma {:induction false} MetLaw(e: Element, count: nat)
    ensures Met(e, count) <==> count + NodeCount(e) - (if EndsInNode(e) then 1 else 0) < 2048
    decreases e, 1
  {
    EndCounts(e);
    if e.children != [] {
      AllMetLaw(e.children, count + IsNode(e), e);
      EndCounts(Last(e.children));
    }
  }

  lemma {:induction false} AllMetLaw(es: seq<Element>, count: nat, e: Element)
    requires es <= e.children && es != []
    ensures AllMet(es, count) <==> count + NodeCounts(es) - (if EndsInNode(Last(es)) then 1 else 0) < 2048
    decreases e, 0, |es|
  {
    assert Last(es) in e.children;
    MetLaw(Last(es), count + NodeCounts(Init(es)));
    EndCounts(Last(es));
    if Init(es) != [] {
      AllMetLaw(Init(es), count, e);
      EndCounts(Last(Init(es)));
    }
  }

  /** A document is read if and only if all bounds match and no element is met after 2048 rows. */
  lemma ReadableLaw(read: BoundsReader, root: Element)
    ensures Readable(read, root, 0, 0) <==>
              && Met(root, 0)
              && forall k :: 0 <= k < |Preorder(root, 0)| ==>
                   var a := Preorder(root, 0)[k].0; read(if "bounds" in a then a["bounds"] else "").Some?
  {
    PreorderLaw(root, 0);
    MetLaw(root, 0);
  }

  // ----- the fields of a row -----

  /** The value of a decimal numeral. */
  function NumberOf(digits: string): int {
    if digits == "" then 0 else 10 * NumberOf(Init(digits)) + (Last(digits) as int - 0x30)
  }

  ghost predicate IsNumeral(digits: string) {
    && digits != "" && (forall k :: 0 <= k < |digits| ==> 0x30 <= digits[k] as int <= 0x39)
    && (|digits| > 1 ==> digits[0] as int != 0x30)
  }

  lemma {:induction false} DecimalLaw(n: nat)
    ensures IsNumeral(Decimal(n)) && NumberOf(Decimal(n)) == n
    ensures n > 0 ==> Decimal(n)[0] as int != 0x30
  {
    if n >= 10 {
      DecimalLaw(n / 10);
      var d := Decimal(n);
      assert Init(d) == Decimal(n / 10);
    } else {
      assert Init(Decimal(n)) == "";
    }
  }

  /** An optional field is the first 500 characters of the attribute, unless that is missing or empty. */
  ghost predicate Shows(field: Option<string>, a: Attributes, key: string) {
    if key in a && a[key] != "" then field.Some? && field.value <= a[key]
                                     && |field.value| == if |a[key]| < 500 then |a[key]| else 500
    else field == None
  }

  /** Row i of an accepted document, field by field. */
  lemma RowLaw(read: BoundsReader, root: Element, i: nat)
    requires Readable(read, root, 0, 0) && i < NodeCount(root)
    ensures |Preorder(root, 0)| == NodeCount(root) == |Rows(read, LabelAll(Splice(root), 0), 0)| <= 2048
    ensures var row, (a, depth) := Rows(read, LabelAll(Splice(root), 0), 0)[i], Preorder(root, 0)[i];
            && row.depth == depth
            && row.bounds == (if "bounds" in a then a["bounds"] else "")
            && row.className == (if "class" in a then a["class"] else "android.view.View")
            && (row.clickable <==> "clickable" in a && a["clickable"] == "true")
            && (if "resource-id" in a && a["resource-id"] != "" then row.id == a["resource-id"]
                else "node-" <= row.id && IsNumeral(row.id[5..]) && NumberOf(row.id[5..]) == i)
            && Shows(row.resourceId, a, "resource-id") && Shows(row.text, a, "text")
            && Shows(row.description, a, "content-desc")
            && read(row.bounds).Some?
            && var (left, top, right, bottom) := read(row.bounds).value;
               && 2 * row.centerX <= left + right < 2 * row.centerX + 2
               && 2 * row.centerY <= top + bottom < 2 * row.centerY + 2
  {
    PreorderLaw(root, 0);
    var (a, depth) := Preorder(root, 0)[i];
    assert BoundsOk(read, a);
    MetLaw(root, 0);
    NodeLaw(read, a, i, depth);
  }

  lemma NodeLaw(read: BoundsReader, a: Attributes, index: nat, depth: nat)
    requires BoundsOk(read, a)
    ensures var row := NodeOf(read, a, index, depth);
            && row.depth == depth
            && row.bounds == (if "bounds" in a then a["bounds"] else "")
            && row.className == (if "class" in a then a["class"] else "android.view.View")
            && (row.clickable <==> "clickable" in a && a["clickable"] == "true")
            && (if "resource-id" in a && a["resource-id"] != "" then row.id == a["resource-id"]
                else "node-" <= row.id && IsNumeral(row.id[5..]) && NumberOf(row.id[5..]) == index)
            && Shows(row.resourceId, a, "resource-id") && Shows(row.text, a, "text")
            && Shows(row.description, a, "content-desc")
            && read(row.bounds).Some?
            && var (left, top, right, bottom) := read(row.bounds).value;
               && 2 * row.centerX <= left + right < 2 * row.centerX + 2
               && 2 * row.centerY <= top + bottom < 2 * row.centerY + 2
  {
    hide Decimal, IsNumeral, NumberOf, Shows, Field;
    FieldLaw(a, "resource-id");
    FieldLaw(a, "text");
    FieldLaw(a, "content-desc");
    DecimalLaw(index);
    var id := "node-" + Decimal(index);
    assert id[5..] == Decimal(index);
  }

  lemma FieldLaw(a: Attributes, key: string)
    ensures Shows(Field(a, key), a, key)
  {
  }
}
