/** The MEI document tree as the converter sees it through jQuery: element
    nodes with a tag (local name), an attribute map and ordered element
    children, plus the error kinds the converter raises. */
module Mei {
  import opened Wrappers

  datatype Node = Node(tag: string, attrs: map<string, string>, children: seq<Node>)

  /** A jQuery selection: zero or more elements in document order. */
  type Selection = seq<Node>

  /** The ways the converter stops. Each corresponds to a `throw` in the source,
      or to a place where the source would go on with NaN or a TypeError. */
  datatype Error =
    | InvalidArgument(what: string)
    | EndOfInput
    | MissingAttribute(name: string)
    | AmbiguousDuration
    | UnsupportedElement(tag: string)
    | UnsupportedValue(what: string)
    | MissingMeter
    | EventNotFound(id: string)
    | NotANumber(what: string)
    | MissingStaffDef
    | CannotFindLayer
    | NoLinkCondition
    | TypeError(what: string)

  type Res<T> = Result<T, Error>

  /** `$(n).attr(name)`: `None` when the attribute is absent (`undefined`). */
  function Attr(n: Node, name: string): Option<string>
  {
    if name in n.attrs then Some(n.attrs[name]) else None
  }

  /** JavaScript truthiness of a string that may be undefined. */
  predicate Truthy(s: Option<string>) {
    s.Some? && s.value != ""
  }

  /** An attribute read followed by a truthiness test (`if (!x) ...`): the
      empty string counts as missing. */
  function AttrT(n: Node, name: string): (a: Option<string>)
    ensures a.Some? <==> Truthy(Attr(n, name))
    ensures a.Some? ==> a == Attr(n, name)
  {
    if Truthy(Attr(n, name)) then Attr(n, name) else None
  }

  function Id(n: Node): Option<string>
  {
    Attr(n, "xml:id")
  }

  /** `$(n).attr(name, v)`: only that attribute changes. */
  function WithAttr(n: Node, name: string, v: string): (r: Node)
    ensures Attr(r, name) == Some(v)
    ensures forall other :: other != name ==> Attr(r, other) == Attr(n, other)
    ensures r.tag == n.tag && r.children == n.children
  {
    n.(attrs := n.attrs[name := v])
  }

  function SetId(n: Node, id: string): Node
  {
    WithAttr(n, "xml:id", id)
  }

  /** `$(sel).children()`: the children of every selected element, in order. */
  function ChildrenOf(sel: Selection): seq<Node>
  {
    if |sel| == 0 then [] else sel[0].children + ChildrenOf(sel[1..])
  }

  /** All proper descendants of `n` in document (pre-)order. */
  function Descendants(n: Node): seq<Node>
    decreases n, 1
  {
    DescendantsSeq(n.children)
  }

  /** Each node of `ns` followed by its descendants. */
  function DescendantsSeq(ns: seq<Node>): seq<Node>
    decreases ns, 0
  {
    if |ns| == 0 then [] else [ns[0]] + Descendants(ns[0]) + DescendantsSeq(ns[1..])
  }

  /** The nodes of `ns` with the given tag, in order. */
  function WithTag(ns: seq<Node>, tag: string): (r: seq<Node>)
    ensures forall x :: x in r ==> x in ns && x.tag == tag
    ensures forall x :: x in ns && x.tag == tag ==> x in r
  {
    if |ns| == 0 then []
    else if ns[0].tag == tag then [ns[0]] + WithTag(ns[1..], tag)
    else WithTag(ns[1..], tag)
  }

  /** The nodes of `ns` whose attribute `name` is exactly `value` (`[name="value"]`). */
  function WithAttrValue(ns: seq<Node>, name: string, value: string): (r: seq<Node>)
    ensures forall x :: x in r ==> x in ns && Attr(x, name) == Some(value)
    ensures forall x :: x in ns && Attr(x, name) == Some(value) ==> x in r
  {
    if |ns| == 0 then []
    else if Attr(ns[0], name) == Some(value) then [ns[0]] + WithAttrValue(ns[1..], name, value)
    else WithAttrValue(ns[1..], name, value)
  }

  /** `$(n).find(tag)`: descendants with the tag, in document order. */
  function Find(n: Node, tag: string): seq<Node>
  {
    WithTag(Descendants(n), tag)
  }

  /** `$(sel).find(tag)` for a selection of disjoint subtrees. */
  function FindIn(sel: Selection, tag: string): seq<Node>
  {
    if |sel| == 0 then [] else Find(sel[0], tag) + FindIn(sel[1..], tag)
  }
}
