/** An abstract XML element tree standing in for the DOM the client reads.
    Only what the client uses is modelled: attribute lookup with the DOM's
    "absent attribute reads as empty string" rule, and the pre-order
    descendant search behind `getElementsByTagName`. */
module Dom {
  import opened Wrappers

  /** An element: tag name, attributes, element children in document order,
      and the text content the DOM reports as `nodeValue`. */
  datatype Element = Element(
    name: string,
    attrs: map<string, string>,
    children: seq<Element>,
    text: string)

  /** A parsed response document; `root` is its document element. */
  datatype Document = Document(root: Element)

  /** `DOMElement::getAttribute`: the attribute's value, or "" when absent. */
  function GetAttribute(e: Element, attr: string): (v: string)
    ensures attr !in e.attrs ==> v == ""
    ensures attr in e.attrs ==> v == e.attrs[attr]
  {
    if attr in e.attrs then e.attrs[attr] else ""
  }

  /** All proper descendants of `e` in document (pre-order) order. */
  function Descendants(e: Element): seq<Element>
    decreases e, 0
  {
    Forest(e.children)
  }

  /** Every element of the forest `es` followed by its descendants, in pre-order. */
  function Forest(es: seq<Element>): seq<Element>
    decreases es, 1
  {
    if es == [] then [] else [es[0]] + Descendants(es[0]) + Forest(es[1..])
  }

  /** The elements of `xs` whose tag name is `tag`, in their order. */
  function Named(xs: seq<Element>, tag: string): (r: seq<Element>)
    ensures |r| <= |xs|
  {
    if xs == [] then []
    else (if xs[0].name == tag then [xs[0]] else []) + Named(xs[1..], tag)
  }

  /** `DOMElement::getElementsByTagName`: the walk over the subtree below `e`
      (excluding `e` itself) collecting elements named `tag`. */
  function ElementsByTagName(e: Element, tag: string): (r: seq<Element>)
    ensures forall x :: x in r ==> x.name == tag
    decreases e, 0
  {
    TagsInForest(e.children, tag)
  }

  function TagsInForest(es: seq<Element>, tag: string): (r: seq<Element>)
    ensures forall x :: x in r ==> x.name == tag
    decreases es, 1
  {
    if es == [] then []
    else (if es[0].name == tag then [es[0]] else [])
         + ElementsByTagName(es[0], tag) + TagsInForest(es[1..], tag)
  }

  /** `DOMDocument::getElementsByTagName`: like the element form, but the
      document element itself is a candidate. */
  function FindAll(doc: Document, tag: string): (r: seq<Element>)
    ensures forall x :: x in r ==> x.name == tag
  {
    (if doc.root.name == tag then [doc.root] else []) + ElementsByTagName(doc.root, tag)
  }

  /** The attribute `attr` of each element, in order, as
      `foreach (... as $item) $list[] = $item->getAttribute($attr)` builds it. */
  function AttributeValues(items: seq<Element>, attr: string): (r: seq<string>)
    ensures |r| == |items|
    ensures forall k :: 0 <= k < |items| ==> r[k] == GetAttribute(items[k], attr)
  {
    if items == [] then [] else [GetAttribute(items[0], attr)] + AttributeValues(items[1..], attr)
  }

  /** `getElementsByTagName(tag)->item(0)`: the first match, if any. */
  function First(xs: seq<Element>): (r: Option<Element>)
    ensures r.Some? <==> |xs| > 0
    ensures r.Some? ==> r.value == xs[0]
  {
    if |xs| == 0 then None else Some(xs[0])
  }

  lemma {:induction false} NamedAppend(xs: seq<Element>, ys: seq<Element>, tag: string)
    ensures Named(xs + ys, tag) == Named(xs, tag) + Named(ys, tag)
    decreases |xs|
  {
    if xs == [] {
      assert xs + ys == ys;
    } else {
      var x := xs[0];
      assert xs == [x] + xs[1..];
      assert xs + ys == [x] + (xs[1..] + ys);
      NamedCons(x, xs[1..] + ys, tag);
      NamedCons(x, xs[1..], tag);
      NamedAppend(xs[1..], ys, tag);
    }
  }

  lemma NamedCons(x: Element, xs: seq<Element>, tag: string)
    ensures Named([x] + xs, tag) == (if x.name == tag then [x] else []) + Named(xs, tag)
  {
    assert ([x] + xs)[1..] == xs;
  }

  /** The tag search is exactly the pre-order descendant list filtered by
      tag name: the same elements, in document order. */
  lemma {:induction false} ElementsByTagNameIsFilteredDescendants(e: Element, tag: string)
    ensures ElementsByTagName(e, tag) == Named(Descendants(e), tag)
    decreases e, 0
  {
    ForestTagsAreFiltered(e.children, tag);
  }

  /** The document-level search is the document element followed by its
      pre-order descendants, filtered by tag name. */
  lemma FindAllIsFiltered(doc: Document, tag: string)
    ensures FindAll(doc, tag) == Named([doc.root] + Descendants(doc.root), tag)
  {
    ElementsByTagNameIsFilteredDescendants(doc.root, tag);
    NamedCons(doc.root, Descendants(doc.root), tag);
  }

  lemma {:induction false} ForestTagsAreFiltered(es: seq<Element>, tag: string)
    ensures TagsInForest(es, tag) == Named(Forest(es), tag)
    decreases es, 1
  {
    if es != [] {
      var x := es[0];
      var d := Descendants(x);
      var f := Forest(es[1..]);
      var own := if x.name == tag then [x] else [];
      assert Forest(es) == [x] + (d + f);
      ElementsByTagNameIsFilteredDescendants(x, tag);
      ForestTagsAreFiltered(es[1..], tag);
      assert TagsInForest(es, tag) == own + Named(d, tag) + Named(f, tag);
      NamedCons(x, d + f, tag);
      NamedAppend(d, f, tag);
      assert Named(Forest(es), tag) == own + (Named(d, tag) + Named(f, tag));
    }
  }
}
