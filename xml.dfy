/**
 * The part of the library's XML element API that the model readers and
 * writers use, as a value: an element has a name, string attributes and an
 * ordered list of child elements. `elements()` counts the children,
 * `elements(name)` counts the children with a given name, `element(name, i)`
 * is the i-th child with that name, `attribute(a)` is "" when the attribute
 * is absent. The library's own XML classes are not part of this model; these
 * are the semantics the callers rely on.
 */
module Xml {

  datatype Element = Element(name: string, attributes: map<string, string>, children: seq<Element>)

  /** The childless element the library builds from the text `name key="v"`. */
  function Leaf(name: string, key: string, v: string): (e: Element)
    ensures e.name == name && e.children == [] && Attribute(e, key) == v
  {
    Element(name, map[key := v], [])
  }

  function Attribute(e: Element, key: string): string {
    if key in e.attributes then e.attributes[key] else ""
  }

  /** `attribute(key, v)`: sets one attribute and leaves everything else as it was. */
  function SetAttribute(e: Element, key: string, v: string): (r: Element)
    ensures r.name == e.name && r.children == e.children
    ensures Attribute(r, key) == v
    ensures forall k :: k != key ==> Attribute(r, k) == Attribute(e, k)
  {
    e.(attributes := e.attributes[key := v])
  }

  function Elements(e: Element): nat {
    |e.children|
  }

  /** Indices of the children called `name`, in document order. */
  function Positions(cs: seq<Element>, name: string): seq<int>
    decreases |cs|
  {
    if cs == [] then []
    else Positions(cs[..|cs| - 1], name) + (if cs[|cs| - 1].name == name then [|cs| - 1] else [])
  }

  /** The positions are exactly the children with that name, strictly increasing. */
  lemma {:induction false} PositionsSpec(cs: seq<Element>, name: string)
    ensures |Positions(cs, name)| <= |cs|
    ensures forall k :: 0 <= k < |Positions(cs, name)| ==>
      0 <= Positions(cs, name)[k] < |cs| && cs[Positions(cs, name)[k]].name == name
    ensures forall k, l :: 0 <= k < l < |Positions(cs, name)| ==> Positions(cs, name)[k] < Positions(cs, name)[l]
    ensures forall i :: 0 <= i < |cs| && cs[i].name == name ==> i in Positions(cs, name)
    decreases |cs|
  {
    if cs != [] {
      var init := cs[..|cs| - 1];
      PositionsSpec(init, name);
      forall i | 0 <= i < |init| ensures init[i] == cs[i] { }
    }
  }

  /** Replacing a child by one with the same name leaves the positions of every name unchanged. */
  lemma {:induction false} PositionsReplace(cs: seq<Element>, p: int, c: Element, name: string)
    requires 0 <= p < |cs| && c.name == cs[p].name
    ensures Positions(cs[p := c], name) == Positions(cs, name)
    decreases |cs|
  {
    var cs' := cs[p := c];
    if p < |cs| - 1 {
      assert cs'[..|cs'| - 1] == cs[..|cs| - 1][p := c];
      PositionsReplace(cs[..|cs| - 1], p, c, name);
    } else {
      assert cs'[..|cs'| - 1] == cs[..|cs| - 1];
    }
  }

  /** Appending a child adds its index to the positions of its own name only. */
  lemma PositionsAppend(cs: seq<Element>, c: Element, name: string)
    ensures Positions(cs + [c], name) == Positions(cs, name) + (if c.name == name then [|cs|] else [])
  {
    assert (cs + [c])[..|cs + [c]| - 1] == cs;
  }

  /** When every child has the name, its positions are 0, 1, ..., |cs|-1. */
  lemma {:induction false} AllNamedPositions(cs: seq<Element>, name: string)
    requires forall i :: 0 <= i < |cs| ==> cs[i].name == name
    ensures Positions(cs, name) == seq(|cs|, i => i)
    decreases |cs|
  {
    if cs != [] {
      var init := cs[..|cs| - 1];
      assert forall i :: 0 <= i < |init| ==> init[i] == cs[i];
      AllNamedPositions(init, name);
      assert seq(|cs|, i => i) == seq(|init|, i => i) + [|cs| - 1];
    }
  }

  function ElementsNamed(e: Element, name: string): nat {
    |Positions(e.children, name)|
  }

  /** `element(name, i)`: the i-th child called `name`. */
  function ElementNamed(e: Element, name: string, i: int): (c: Element)
    requires 0 <= i < ElementsNamed(e, name)
    ensures c.name == name
  {
    PositionsSpec(e.children, name);
    e.children[Positions(e.children, name)[i]]
  }

  /** Writes back the i-th child called `name` after the caller updated it in place. */
  function ReplaceNamed(e: Element, name: string, i: int, c: Element): (r: Element)
    requires 0 <= i < ElementsNamed(e, name)
    requires c.name == name
    ensures r.name == e.name && r.attributes == e.attributes && |r.children| == |e.children|
    ensures forall n :: Positions(r.children, n) == Positions(e.children, n)
    ensures ElementNamed(r, name, i) == c
    ensures forall j :: 0 <= j < ElementsNamed(e, name) && j != i ==> ElementNamed(r, name, j) == ElementNamed(e, name, j)
  {
    PositionsSpec(e.children, name);
    var p := Positions(e.children, name)[i];
    forall n ensures Positions(e.children[p := c], n) == Positions(e.children, n) {
      PositionsReplace(e.children, p, c, n);
    }
    e.(children := e.children[p := c])
  }

  function Append(e: Element, c: Element): (r: Element)
    ensures r.name == e.name && r.attributes == e.attributes && r.children == e.children + [c]
  {
    e.(children := e.children + [c])
  }

  /** The "name" attribute of a parameter element. */
  function ParName(p: Element): string { Attribute(p, "name") }

  /** The children called "parameter", in document order (`element("parameter", i)`). */
  function Params(xml: Element): (ps: seq<Element>)
    ensures |ps| == ElementsNamed(xml, "parameter")
    ensures forall i :: 0 <= i < |ps| ==> ps[i] == ElementNamed(xml, "parameter", i)
  {
    seq(ElementsNamed(xml, "parameter"), i requires 0 <= i < ElementsNamed(xml, "parameter") => ElementNamed(xml, "parameter", i))
  }
}
