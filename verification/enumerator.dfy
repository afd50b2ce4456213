/** MeiLib.EventEnumerator: a read-ahead cursor over the events of a layer
    (or beam) that steps into beams.

    The JavaScript object is lazy, but walking the tree has no side effects
    and cannot fail, so the model computes up front the list of nodes the
    cursor will hand out (`Run`, which follows `step_ahead`/`read_ahead`
    branch by branch) and lets `NextEvent` pop from that list. `EoI` is true
    exactly when the list is empty, as in the source, where it is false iff
    `next_evnt` holds a node still to be returned. */
module Enumeration {
  import opened Wrappers
  import opened Mei

  /** The tags `step_ahead` accepts as events. */
  predicate IsEventTag(tag: string) {
    tag == "note" || tag == "rest" || tag == "mRest" || tag == "chord"
  }

  /** The nodes handed out by an enumerator whose remaining children are
      `children`, where `eoi` is the EoI flag that `step_ahead` finds when it
      reaches the first of them.
      - an event is handed out and clears EoI;
      - a beam opens a nested enumerator: if that yields nothing, EoI is set
        and enumeration ends; otherwise its events are handed out and, once it
        is exhausted, EoI is set before the next child is read;
      - any other child leaves EoI as it was: handed out if EoI is false
        (mid-stream), and ending enumeration if EoI is true (first child, or
        right after a beam). */
  function Run(children: seq<Node>, eoi: bool): seq<Node>
    decreases children
  {
    if |children| == 0 then []
    else
      var c := children[0];
      if IsEventTag(c.tag) then [c] + Run(children[1..], false)
      else if c.tag == "beam" then
        var inner := Run(c.children, true);
        if |inner| == 0 then [] else inner + Run(children[1..], true)
      else if eoi then []
      else [c] + Run(children[1..], false)
  }

  datatype EventEnumerator = EventEnumerator(pending: seq<Node>) {
    /** End of input: no further `nextEvent` will succeed. */
    predicate EoI() {
      |pending| == 0
    }
  }

  /** `new MeiLib.EventEnumerator(node)`; `None` is a null or undefined node. */
  function Init(node: Option<Selection>): (r: Res<EventEnumerator>)
    ensures node.None? ==> r == Err(InvalidArgument("node is null or undefined"))
    ensures node.Some? ==> r.Ok? && r.value.pending == Run(ChildrenOf(node.value), true)
  {
    match node
    case None => Err(InvalidArgument("node is null or undefined"))
    case Some(sel) => Ok(EventEnumerator(Run(ChildrenOf(sel), true)))
  }

  /** `nextEvent()`: the read-ahead node, and the cursor moved past it. */
  function NextEvent(e: EventEnumerator): (r: Res<(Node, EventEnumerator)>)
    ensures e.EoI() <==> r == Err(EndOfInput)
    ensures r.Ok? ==> [r.value.0] + r.value.1.pending == e.pending
  {
    if e.EoI() then Err(EndOfInput)
    else Ok((e.pending[0], EventEnumerator(e.pending[1..])))
  }

  /** The cursor after `k` successive `nextEvent` calls. */
  function Advance(e: EventEnumerator, k: nat): Res<EventEnumerator>
    decreases k
  {
    if k == 0 then Ok(e)
    else
      var (_, e') :- NextEvent(e);
      Advance(e', k - 1)
  }

  /** The leaf events of a layer read left to right, beams spliced out and
      every other element skipped. This is the flattening the enumerator is
      meant to produce. */
  function Leaves(children: seq<Node>): seq<Node>
    decreases children
  {
    if |children| == 0 then []
    else
      var c := children[0];
      if IsEventTag(c.tag) then [c] + Leaves(children[1..])
      else if c.tag == "beam" then Leaves(c.children) + Leaves(children[1..])
      else Leaves(children[1..])
  }

  /** Children that are events, or non-empty beams whose children are again
      well formed. */
  predicate WellFormed(children: seq<Node>)
    decreases children
  {
    |children| == 0 ||
    ((IsEventTag(children[0].tag) ||
      (children[0].tag == "beam" && |children[0].children| > 0 && WellFormed(children[0].children)))
     && WellFormed(children[1..]))
  }

  /** On well-formed children the enumerator yields exactly the leaf events,
      whatever EoI flag it starts from, and never nothing for non-empty input. */
  lemma {:induction false} RunIsLeaves(children: seq<Node>, eoi: bool)
    requires WellFormed(children)
    ensures Run(children, eoi) == Leaves(children)
    ensures |children| > 0 ==> |Leaves(children)| > 0
    decreases children
  {
    if |children| > 0 {
      var c := children[0];
      RunIsLeaves(children[1..], false);
      RunIsLeaves(children[1..], true);
      if !IsEventTag(c.tag) {
        RunIsLeaves(c.children, true);
      }
    }
  }

  lemma {:induction false} AdvanceDrops(p: seq<Node>, k: nat)
    requires k <= |p|
    ensures Advance(EventEnumerator(p), k) == Ok(EventEnumerator(p[k..]))
    decreases k
  {
    if k > 0 {
      AdvanceDrops(p[1..], k - 1);
      assert p[1..][k - 1..] == p[k..];
    }
  }

  /** For a layer of events and non-empty beams, successive `nextEvent`
      results are the leaf events from left to right; EoI is false exactly
      while another event remains, and `nextEvent` at EoI raises. */
  lemma EnumeratesLeaves(layer: Node, k: nat)
    requires WellFormed(layer.children)
    requires k <= |Leaves(layer.children)|
    ensures Init(Some([layer])).Ok?
    ensures var e := Init(Some([layer])).value;
      && Advance(e, k).Ok?
      && (Advance(e, k).value.EoI() <==> k == |Leaves(layer.children)|)
      && (k < |Leaves(layer.children)| ==>
            && NextEvent(Advance(e, k).value).Ok?
            && NextEvent(Advance(e, k).value).value.0 == Leaves(layer.children)[k]
            && Advance(e, k + 1) == Ok(NextEvent(Advance(e, k).value).value.1))
      && (k == |Leaves(layer.children)| ==> NextEvent(Advance(e, k).value) == Err(EndOfInput))
  {
    assert [layer][1..] == [];
    assert ChildrenOf([layer]) == layer.children;
    RunIsLeaves(layer.children, true);
    var p := Leaves(layer.children);
    assert Init(Some([layer])).value == EventEnumerator(p);
    AdvanceDrops(p, k);
    if k < |p| {
      AdvanceDrops(p, k + 1);
      assert p[k..][1..] == p[k + 1..];
    }
  }

  /** Where the cursor departs from the flattening: a non-event first child
      ends enumeration; after a beam, a non-event child ends it as well; an
      empty beam ends it; a non-event right after an event is handed out. */
  lemma {:induction false} EnumeratorQuirks(e: Node, x: Node, b: Node, rest: seq<Node>)
    requires IsEventTag(e.tag)
    requires !IsEventTag(x.tag) && x.tag != "beam"
    requires b.tag == "beam"
    ensures Run([x] + rest, true) == []
    ensures |b.children| == 0 ==> Run([b] + rest, false) == []
    ensures |Run([e, x] + rest, true)| >= 2 && Run([e, x] + rest, true)[..2] == [e, x]
    ensures Run([b.(children := [e]), x] + rest, false) == [e]
  {
    var bb := b.(children := [e]);
    assert ([bb, x] + rest)[1..] == [x] + rest;
    assert ([x] + rest)[0] == x;
    assert Run(bb.children, true) == [e] + Run([], false);
    assert ([e, x] + rest)[1..] == [x] + rest;
    assert Run([e, x] + rest, true) == [e] + ([x] + Run(rest, false));
  }
}
