/** The part of `xml.etree.ElementTree` the classifier relies on: elements,
    `Element.iter()` (pre-order, root included) and `Element.find` with a
    plain tag, a tag with an attribute test, and a path of tags. */
module Tree {
  import opened Wrappers

  /** An XML element: tag, attributes, child elements in order, text (None when absent). */
  datatype Element = Element(tag: string, attrib: map<string, string>, children: seq<Element>, text: Option<string>)

  /** `root.iter()`: the element itself, then the pre-order of each child in turn. */
  function PreOrder(e: Element): (r: seq<Element>)
    decreases e, 1
  {
    [e] + PreOrderAll(e.children)
  }

  function PreOrderAll(cs: seq<Element>): (r: seq<Element>)
    decreases cs, 0
  {
    if cs == [] then [] else PreOrder(cs[0]) + PreOrderAll(cs[1..])
  }

  /** `e` is the root itself or lies in the subtree of one of its children. */
  predicate InTree(d: Element, e: Element)
    decreases e, 1
  {
    d == e || InForest(d, e.children)
  }

  predicate InForest(d: Element, cs: seq<Element>)
    decreases cs, 0
  {
    cs != [] && (InTree(d, cs[0]) || InForest(d, cs[1..]))
  }

  /** `iter()` visits exactly the elements of the tree: the root and every
      descendant at any depth. */
  lemma {:induction false} PreOrderMembers(d: Element, e: Element)
    ensures d in PreOrder(e) <==> InTree(d, e)
    decreases e, 1
  {
    PreOrderAllMembers(d, e.children);
  }

  lemma {:induction false} PreOrderAllMembers(d: Element, cs: seq<Element>)
    ensures d in PreOrderAll(cs) <==> InForest(d, cs)
    decreases cs, 0
  {
    if cs != [] {
      PreOrderMembers(d, cs[0]);
      PreOrderAllMembers(d, cs[1..]);
    }
  }

  /** `e.find(tag)`: the first direct child with that tag. */
  function Find(e: Element, tag: string): (r: Option<Element>)
    ensures r.Some? ==> r.value in e.children && r.value.tag == tag
    ensures r.None? <==> forall c :: c in e.children ==> c.tag != tag
  {
    FirstWith(e.children, tag, None)
  }

  /** `e.find('tag[@key="value"]')`: the first direct child with that tag whose attribute `key` is `value`. */
  function FindWithAttribute(e: Element, tag: string, key: string, value: string): (r: Option<Element>)
    ensures r.Some? ==> r.value in e.children && r.value.tag == tag && key in r.value.attrib && r.value.attrib[key] == value
    ensures r.None? <==> forall c :: c in e.children ==> !(c.tag == tag && key in c.attrib && c.attrib[key] == value)
  {
    FirstWith(e.children, tag, Some((key, value)))
  }

  predicate Matches(c: Element, tag: string, attr: Option<(string, string)>)
  {
    c.tag == tag && (attr.Some? ==> attr.value.0 in c.attrib && c.attrib[attr.value.0] == attr.value.1)
  }

  /** First element of `cs` that matches, scanning in document order. */
  function FirstWith(cs: seq<Element>, tag: string, attr: Option<(string, string)>): (r: Option<Element>)
    ensures r.Some? ==> r.value in cs && Matches(r.value, tag, attr)
    ensures r.None? <==> forall c :: c in cs ==> !Matches(c, tag, attr)
  {
    if cs == [] then None
    else if Matches(cs[0], tag, attr) then Some(cs[0])
    else FirstWith(cs[1..], tag, attr)
  }

  /** The element found is the first match: no earlier child matches. */
  lemma {:induction false} FirstWithIsFirst(cs: seq<Element>, tag: string, attr: Option<(string, string)>)
    requires FirstWith(cs, tag, attr).Some?
    ensures exists i :: 0 <= i < |cs| && cs[i] == FirstWith(cs, tag, attr).value
                        && forall j :: 0 <= j < i ==> !Matches(cs[j], tag, attr)
  {
    if !Matches(cs[0], tag, attr) {
      FirstWithIsFirst(cs[1..], tag, attr);
      var i :| 0 <= i < |cs[1..]| && cs[1..][i] == FirstWith(cs, tag, attr).value
               && forall j :: 0 <= j < i ==> !Matches(cs[1..][j], tag, attr);
      assert cs[i + 1] == FirstWith(cs, tag, attr).value;
      forall j | 0 <= j < i + 1 ensures !Matches(cs[j], tag, attr) {
        if j > 0 { assert cs[j] == cs[1..][j - 1]; }
      }
    } else {
      assert cs[0] == FirstWith(cs, tag, attr).value;
    }
  }

  /** `e.find('./A/B/C') is not None`: some chain of direct children carries
      the tags of `path` in order. */
  predicate HasChildPath(e: Element, path: seq<string>)
    decreases e
  {
    path == [] || exists c :: c in e.children && c.tag == path[0] && HasChildPath(c, path[1..])
  }
}
