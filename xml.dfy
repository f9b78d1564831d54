/** The part of a `minidom` tree the feed reader walks: elements with a tag
    name, attributes and children, and the character-data nodes between
    them; and `getElementsByTagName`, which `get_episodes_from_feed_url`
    (lightcast/core.py:69) and `Episode.from_xml` (lightcast/core.py:56-59) use
    to find items and their fields. */
module Xml {

  /** A DOM node. CDATA sections are text nodes (as in `minidom`) and
      processing instructions are folded into comments: both only carry
      their `data` as `nodeValue`. */
  datatype Node =
    | Element(tagName: string, attributes: map<string, string>, children: seq<Node>)
    | Text(data: string)
    | Comment(data: string)

  type Element = n: Node | n.Element? witness Element("", map[], [])

  /** `getElementsByTagName` matches every element when asked for `*`. */
  predicate Matches(tagName: string, name: string) {
    name == "*" || tagName == name
  }

  /** `getElementsByTagName(name)` on a node whose children are `nodes`:
      the matching elements among all descendants, in document order (each
      element before the elements inside it, which come before its later
      siblings). The node itself is never part of the result. */
  function ElementsByTagName(nodes: seq<Node>, name: string): (r: seq<Element>)
    ensures forall k :: 0 <= k < |r| ==> Matches(r[k].tagName, name)
    decreases nodes
  {
    if nodes == [] then []
    else
      var n := nodes[0];
      var here: seq<Element> :=
        if n.Element? then (if Matches(n.tagName, name) then [n] else []) + ElementsByTagName(n.children, name)
        else [];
      here + ElementsByTagName(nodes[1..], name)
  }

  /** `x` is one of `nodes` or lies somewhere inside one of them. */
  ghost predicate Within(x: Node, nodes: seq<Node>)
    decreases nodes
  {
    exists i :: 0 <= i < |nodes| && (nodes[i] == x || (nodes[i].Element? && Within(x, nodes[i].children)))
  }

  /** The search finds exactly the matching elements of the subtree, and
      nothing from outside it. */
  lemma {:induction false} FoundIffWithin(nodes: seq<Node>, name: string, x: Node)
    ensures x in ElementsByTagName(nodes, name) <==> x.Element? && Matches(x.tagName, name) && Within(x, nodes)
    decreases nodes
  {
    if nodes != [] {
      var n := nodes[0];
      FoundIffWithin(nodes[1..], name, x);
      if n.Element? {
        FoundIffWithin(n.children, name, x);
      }
      WithinCons(x, nodes);
    }
  }

  /** Being within a non-empty forest: being its first tree, within the
      first tree's children, or within the rest. */
  lemma {:induction false} WithinCons(x: Node, nodes: seq<Node>)
    requires nodes != []
    ensures Within(x, nodes)
        <==> nodes[0] == x || (nodes[0].Element? && Within(x, nodes[0].children)) || Within(x, nodes[1..])
  {
    if Within(x, nodes[1..]) {
      var i :| 0 <= i < |nodes[1..]| && (nodes[1..][i] == x || (nodes[1..][i].Element? && Within(x, nodes[1..][i].children)));
      assert nodes[i + 1] == nodes[1..][i];
    }
    if Within(x, nodes) {
      var i :| 0 <= i < |nodes| && (nodes[i] == x || (nodes[i].Element? && Within(x, nodes[i].children)));
      if i > 0 {
        assert nodes[1..][i - 1] == nodes[i];
      }
    }
  }

  /** Document order across siblings: searching a forest searches its
      parts one after the other. */
  lemma {:induction false} SearchConcat(a: seq<Node>, b: seq<Node>, name: string)
    ensures ElementsByTagName(a + b, name) == ElementsByTagName(a, name) + ElementsByTagName(b, name)
    decreases a
  {
    if a != [] {
      assert (a + b)[0] == a[0];
      assert (a + b)[1..] == a[1..] + b;
      SearchConcat(a[1..], b, name);
    } else {
      assert a + b == b;
    }
  }

  /** A matching element found first in document order is the first
      result, which is what `getElementsByTagName(name)[0]` reads. */
  lemma {:induction false} FirstChildFirst(e: Element, rest: seq<Node>, name: string)
    requires Matches(e.tagName, name)
    ensures ElementsByTagName([e] + rest, name)[0] == e
  {
    assert ([e] + rest)[0] == e;
  }

  /** Nodes holding no element of the name contribute nothing. */
  lemma {:induction false} NoneFound(nodes: seq<Node>, name: string)
    requires forall k :: 0 <= k < |nodes| ==> !nodes[k].Element? || (!Matches(nodes[k].tagName, name) && NoElements(nodes[k].children))
    ensures ElementsByTagName(nodes, name) == []
    decreases nodes
  {
    if nodes != [] {
      if nodes[0].Element? {
        NoElementsNoneFound(nodes[0].children, name);
      }
      NoneFound(nodes[1..], name);
    }
  }

  /** Character data only: no element among `nodes`. */
  predicate NoElements(nodes: seq<Node>) {
    forall k :: 0 <= k < |nodes| ==> !nodes[k].Element?
  }

  lemma {:induction false} NoElementsNoneFound(nodes: seq<Node>, name: string)
    requires NoElements(nodes)
    ensures ElementsByTagName(nodes, name) == []
    decreases nodes
  {
    if nodes != [] {
      NoElementsNoneFound(nodes[1..], name);
    }
  }

  /** An element that does not match contributes only what lies inside it. */
  lemma {:induction false} UnmatchedElement(e: Element, name: string)
    requires !Matches(e.tagName, name)
    ensures ElementsByTagName([e], name) == ElementsByTagName(e.children, name)
  {
    assert [e][1..] == [];
    assert ElementsByTagName([e], name) == ElementsByTagName(e.children, name) + [];
  }
}
