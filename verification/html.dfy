/** The element tree produced by the HTML parser, and the ElementTree
    operations the extractor uses on it: `get`, `attrib[...]`, indexing a
    child, `len`, and `iter()` (pre-order traversal). */
module Html {
  import opened Wrappers

  /** One element: tag name, attribute mapping, ordered children and the
      text that immediately follows the opening tag (`None` when absent). */
  datatype Element = Element(tag: string, attrs: map<string, string>, children: seq<Element>, text: Option<string>)

  /** The exceptions a fixed-layout lookup can raise. */
  datatype Error =
    | IndexError              // `element[i]` with no i-th child
    | KeyError(key: string)   // `element.attrib[key]` with no such attribute
    | AttributeError          // a string method called on a `None` text

  /** `element.get(name)`: the attribute value, or `None`. */
  function Get(e: Element, name: string): (r: Option<string>)
    ensures r.Some? <==> name in e.attrs
    ensures r.Some? ==> r.value == e.attrs[name]
  {
    if name in e.attrs then Some(e.attrs[name]) else None
  }

  /** `element.get(name, default)`. */
  function GetOr(e: Element, name: string, default: string): (r: string)
    ensures name in e.attrs ==> r == e.attrs[name]
    ensures name !in e.attrs ==> r == default
  {
    match Get(e, name)
    case Some(v) => v
    case None => default
  }

  /** `element.attrib[name]`: the attribute value, or a `KeyError`. */
  function Attrib(e: Element, name: string): (r: Result<string, Error>)
    ensures r.Success? <==> name in e.attrs
    ensures r.Success? ==> r.value == e.attrs[name]
    ensures r.Failure? ==> r.error == KeyError(name)
  {
    if name in e.attrs then Success(e.attrs[name]) else Failure(KeyError(name))
  }

  /** `element[i]` for a non-negative index: the i-th child, or an `IndexError`. */
  function Child(e: Element, i: nat): (r: Result<Element, Error>)
    ensures r.Success? <==> i < |e.children|
    ensures r.Success? ==> r.value == e.children[i]
    ensures r.Failure? ==> r.error == IndexError
  {
    if i < |e.children| then Success(e.children[i]) else Failure(IndexError)
  }

  /** `element[p0][p1]...[pn]`: a fixed-position path of child indices,
      evaluated left to right; the first missing index raises. */
  function At(e: Element, path: seq<nat>): (r: Result<Element, Error>)
    ensures r.Failure? ==> r.error == IndexError
    decreases |path|
  {
    if path == [] then Success(e)
    else
      var c :- Child(e, path[0]);
      At(c, path[1..])
  }

  /** A path every index of which exists, stated as: each step from the
      root stays within the children of the node reached so far. */
  ghost predicate ValidPath(e: Element, path: seq<nat>)
    decreases |path|
  {
    path == [] || (path[0] < |e.children| && ValidPath(e.children[path[0]], path[1..]))
  }

  /** The node a valid path leads to. */
  ghost function NodeAt(e: Element, path: seq<nat>): Element
    requires ValidPath(e, path)
    decreases |path|
  {
    if path == [] then e else NodeAt(e.children[path[0]], path[1..])
  }

  /** Path lookup succeeds exactly on valid paths, and finds the node there. */
  lemma {:induction false} AtValid(e: Element, path: seq<nat>)
    ensures At(e, path).Success? <==> ValidPath(e, path)
    ensures At(e, path).Success? ==> At(e, path).value == NodeAt(e, path)
    decreases |path|
  {
    if path != [] && path[0] < |e.children| {
      AtValid(e.children[path[0]], path[1..]);
    }
  }

  /** Chained indexing composes: looking up `p` and then `q` from the node
      reached is the same as looking up `p + q` from the start, both in the
      node found and in whether an index is missing. */
  lemma {:induction false} AtAppend(e: Element, p: seq<nat>, q: seq<nat>)
    ensures At(e, p + q) == (if At(e, p).Success? then At(At(e, p).value, q) else Failure(IndexError))
    decreases |p|
  {
    if p == [] {
      assert p + q == q;
    } else {
      assert (p + q)[0] == p[0];
      assert (p + q)[1..] == p[1..] + q;
      if p[0] < |e.children| {
        AtAppend(e.children[p[0]], p[1..], q);
      }
    }
  }

  /** The same composition for valid paths and the nodes they reach. */
  lemma {:induction false} NodeAtAppend(e: Element, p: seq<nat>, q: seq<nat>)
    ensures ValidPath(e, p + q) <==> ValidPath(e, p) && ValidPath(NodeAt(e, p), q)
    ensures ValidPath(e, p + q) ==> NodeAt(e, p + q) == NodeAt(NodeAt(e, p), q)
    decreases |p|
  {
    if p == [] {
      assert p + q == q;
    } else {
      assert (p + q)[0] == p[0];
      assert (p + q)[1..] == p[1..] + q;
      if p[0] < |e.children| {
        NodeAtAppend(e.children[p[0]], p[1..], q);
      }
    }
  }

  /** `element.iter()`: the element itself followed by the pre-order
      traversals of its children, in document order. */
  function PreOrder(e: Element): (r: seq<Element>)
    decreases e
  {
    [e] + PreOrderAll(e.children)
  }

  /** Pre-order traversals of a sequence of siblings, concatenated. */
  function PreOrderAll(cs: seq<Element>): (r: seq<Element>)
    decreases cs
  {
    if cs == [] then [] else PreOrder(cs[0]) + PreOrderAll(cs[1..])
  }

  /** Every node reachable by a valid path appears in the traversal: the
      scan visits the element itself and its descendants at any depth. */
  lemma {:induction false} PreOrderVisitsDescendants(e: Element, path: seq<nat>)
    requires ValidPath(e, path)
    ensures NodeAt(e, path) in PreOrder(e)
    decreases |path|
  {
    if path != [] {
      var i := path[0];
      PreOrderVisitsDescendants(e.children[i], path[1..]);
      PreOrderAllContains(e.children, i);
    }
  }

  lemma {:induction false} PreOrderAllContains(cs: seq<Element>, i: nat)
    requires i < |cs|
    ensures forall x :: x in PreOrder(cs[i]) ==> x in PreOrderAll(cs)
    decreases |cs|
  {
    if i > 0 {
      PreOrderAllContains(cs[1..], i - 1);
    }
  }

  /** Conversely, the traversal visits nothing but the element and its
      descendants: each visited node is reached by some valid path. */
  lemma {:induction false} PreOrderOnlyDescendants(e: Element, x: Element)
    requires x in PreOrder(e)
    ensures exists path :: ValidPath(e, path) && NodeAt(e, path) == x
    decreases e
  {
    if x == e {
      assert ValidPath(e, []) && NodeAt(e, []) == x;
    } else {
      var i := PreOrderAllFind(e.children, x);
      PreOrderOnlyDescendants(e.children[i], x);
      var p :| ValidPath(e.children[i], p) && NodeAt(e.children[i], p) == x;
      var path := [i] + p;
      assert path[1..] == p;
      assert ValidPath(e, path) && NodeAt(e, path) == x;
    }
  }

  /** The child whose traversal contributed a node of the siblings' traversal. */
  lemma {:induction false} PreOrderAllFind(cs: seq<Element>, x: Element) returns (i: nat)
    requires x in PreOrderAll(cs)
    ensures i < |cs| && x in PreOrder(cs[i])
    decreases |cs|
  {
    if x in PreOrder(cs[0]) {
      i := 0;
    } else {
      var j := PreOrderAllFind(cs[1..], x);
      i := j + 1;
    }
  }
}
