/**
 * A parsed HTML page as the scraper crate presents it: a forest of nodes,
 * elements carrying their attributes in document order, and the two kinds of
 * selector the repository uses (a tag name, and an attribute equal to a value,
 * which also covers `#id`). Parsing itself is not modelled: a page is given as
 * its node tree.
 */
module Html {

  import opened Wrappers

  datatype Attribute = Attribute(key: string, value: string)

  /** An element, or any other node (text, comment), which has no attributes and no children. */
  datatype Node =
    | Element(name: string, attributes: seq<Attribute>, children: seq<Node>)
    | Text(text: string)

  /** The top-level nodes of a page, in document order. */
  type Document = seq<Node>

  /** The value of the first attribute named `key`. */
  function Lookup(attributes: seq<Attribute>, key: string): (r: Option<string>)
    ensures r.Some? <==> exists i :: 0 <= i < |attributes| && attributes[i].key == key
  {
    if attributes == [] then None
    else if attributes[0].key == key then Some(attributes[0].value)
    else Lookup(attributes[1..], key)
  }

  /** The value found is the one of the first attribute with that key. */
  lemma {:induction false} LookupFirst(attributes: seq<Attribute>, key: string)
    requires Lookup(attributes, key).Some?
    ensures exists i :: 0 <= i < |attributes| && attributes[i] == Attribute(key, Lookup(attributes, key).value)
                        && forall j :: 0 <= j < i ==> attributes[j].key != key
  {
    if attributes[0].key == key {
      assert attributes[0] == Attribute(key, Lookup(attributes, key).value);
    } else {
      var tail := attributes[1..];
      LookupFirst(tail, key);
      var i :| 0 <= i < |tail| && tail[i] == Attribute(key, Lookup(tail, key).value)
               && forall j :: 0 <= j < i ==> tail[j].key != key;
      assert attributes[i + 1] == tail[i];
      assert forall j :: 1 <= j < i + 1 ==> attributes[j] == tail[j - 1];
    }
  }

  /** `attr(key)` of an element; a non-element has no attributes. */
  function Attr(n: Node, key: string): Option<string> {
    if n.Element? then Lookup(n.attributes, key) else None
  }

  /** `attr(key).unwrap_or("")`. */
  function AttrOr(n: Node, key: string): string {
    Attr(n, key).GetOr("")
  }

  function Children(n: Node): seq<Node> {
    if n.Element? then n.children else []
  }

  datatype Selector =
    | Tag(name: string)
    | AttrEquals(key: string, value: string)

  /** `#id` and `[id="..."]` select the same elements. */
  function IdSelector(id: string): Selector {
    AttrEquals("id", id)
  }

  predicate Matches(sel: Selector, n: Node) {
    n.Element? &&
    match sel
    case Tag(name) => n.name == name
    case AttrEquals(key, value) => Lookup(n.attributes, key) == Some(value)
  }

  /**
   * The matching nodes of a forest, each node before its descendants and
   * before its later siblings (document order), as `Html::select` yields them.
   */
  function Select(nodes: seq<Node>, sel: Selector): (r: seq<Node>)
    ensures forall i :: 0 <= i < |r| ==> Matches(sel, r[i])
    decreases nodes
  {
    if nodes == [] then []
    else
      var here := if Matches(sel, nodes[0]) then [nodes[0]] else [];
      var below := match nodes[0] case Element(_, _, cs) => Select(cs, sel) case Text(_) => [];
      here + below + Select(nodes[1..], sel)
  }

  /** `ElementRef::select`: the matching descendants of `n`, `n` itself excluded. */
  function SelectWithin(n: Node, sel: Selector): (r: seq<Node>)
    ensures forall i :: 0 <= i < |r| ==> Matches(sel, r[i])
  {
    Select(Children(n), sel)
  }

  /** Selecting over two forests side by side keeps the order of the forests. */
  lemma {:induction false} SelectAppend(a: seq<Node>, b: seq<Node>, sel: Selector)
    ensures Select(a + b, sel) == Select(a, sel) + Select(b, sel)
    decreases |a|
  {
    if a == [] {
      assert a + b == b;
    } else {
      assert (a + b)[0] == a[0];
      assert (a + b)[1..] == a[1..] + b;
      SelectAppend(a[1..], b, sel);
    }
  }
}
