/** MeiLib.sumUpUntil, MeiLib.id2tstamp and MeiLib.tstamp2id: converting
    between the xml:id of an event and its beat position in a measure. */
module Temporal {
  import opened Wrappers
  import opened Numbers
  import opened Mei
  import opened Durations
  import opened Enumeration

  /** `{ beats, found }` as `sumUpUntil` returns it. */
  datatype Sum = Sum(beats: real, found: bool)

  /** `sumUpUntil_inNode`: the beats before the event `id` within `n`, or all
      of `n`'s beats when `id` is not inside it.
      - a note or rest needs a numeric, non-zero @dur (dots are ignored);
      - a chord with its own @dur always reports `found`, because the jQuery
        result checked there is an object and so always truthy;
      - a chord without @dur reports the beats of the last child it looked at,
        because the loop assigns instead of adding; with no children at all
        that value is undefined, which the model reports as `NotANumber`;
      - any other element counts for nothing. */
  function SumInNode(id: string, n: Node, m: Meter): (r: Res<Sum>)
    ensures r.Err? ==> r.error.NotANumber?
    decreases n, 1
  {
    if n.tag == "note" || n.tag == "rest" then
      if Id(n) == Some(id) then Ok(Sum(0.0, true))
      else
        var dur := NumberOf(Attr(n, "dur"));
        if NumberTruthy(dur) then Ok(Sum(Dur2Beats(dur.value, m), false))
        else Err(NotANumber("dur"))
    else if n.tag == "mRest" then
      if Id(n) == Some(id) then Ok(Sum(0.0, true)) else Ok(Sum(m.count, false))
    else if n.tag == "layer" || n.tag == "beam" then
      SumSeq(id, n.children, m)
    else if n.tag == "chord" then
      if Id(n) == Some(id) then Ok(Sum(0.0, true))
      else if Truthy(Attr(n, "dur")) then Ok(Sum(0.0, true))
      else if |n.children| == 0 then Err(NotANumber("beats"))
      else LastInspected(id, n.children, m)
    else Ok(Sum(0.0, false))
  }

  /** The loop of a layer or beam: add up children until one reports `found`. */
  function SumSeq(id: string, ns: seq<Node>, m: Meter): (r: Res<Sum>)
    ensures r.Err? ==> r.error.NotANumber?
    decreases ns, 0
  {
    if |ns| == 0 then Ok(Sum(0.0, false))
    else
      var s :- SumInNode(id, ns[0], m);
      if s.found then Ok(s)
      else
        var rest :- SumSeq(id, ns[1..], m);
        Ok(Sum(s.beats + rest.beats, rest.found))
  }

  /** The loop of a chord without @dur: each child's result replaces the last. */
  function LastInspected(id: string, ns: seq<Node>, m: Meter): (r: Res<Sum>)
    requires |ns| > 0
    ensures r.Err? ==> r.error.NotANumber?
    decreases ns, 0
  {
    var s :- SumInNode(id, ns[0], m);
    if s.found || |ns| == 1 then Ok(s) else LastInspected(id, ns[1..], m)
  }

  /** `MeiLib.sumUpUntil(eventid, layer, meter)`. */
  function SumUpUntil(id: string, layer: Node, m: Meter): Res<Sum>
  {
    SumInNode(id, layer, m)
  }

  // ---------------------------------------------------------------------
  // Reference: the beats before the first leaf carrying the id

  /** A note or rest with a numeric non-zero @dur, or a measure rest. */
  predicate TimedLeaf(n: Node) {
    ((n.tag == "note" || n.tag == "rest") && NumberTruthy(NumberOf(Attr(n, "dur")))) || n.tag == "mRest"
  }

  /** Children that are timed leaves, or beams of such children. */
  predicate Timed(ns: seq<Node>)
    decreases ns
  {
    forall i :: 0 <= i < |ns| ==> TimedLeaf(ns[i]) || (ns[i].tag == "beam" && Timed(ns[i].children))
  }

  /** The length of one timed leaf. */
  function LeafBeats(n: Node, m: Meter): real
  {
    if n.tag == "mRest" then m.count
    else
      var dur := NumberOf(Attr(n, "dur"));
      if NumberTruthy(dur) then Dur2Beats(dur.value, m) else 0.0
  }

  function Total(ls: seq<Node>, m: Meter): real
  {
    if |ls| == 0 then 0.0 else LeafBeats(ls[0], m) + Total(ls[1..], m)
  }

  /** The position of the first node carrying xml:id `id`, or -1. */
  function FirstWithId(ls: seq<Node>, id: string): (k: int)
    ensures -1 <= k < |ls|
    ensures k >= 0 ==> Id(ls[k]) == Some(id) && forall j :: 0 <= j < k ==> Id(ls[j]) != Some(id)
    ensures k == -1 ==> forall j :: 0 <= j < |ls| ==> Id(ls[j]) != Some(id)
  {
    if |ls| == 0 then -1
    else if Id(ls[0]) == Some(id) then 0
    else
      var k := FirstWithId(ls[1..], id);
      if k < 0 then -1 else k + 1
  }

  lemma {:induction false} TotalAppend(a: seq<Node>, b: seq<Node>, m: Meter)
    ensures Total(a + b, m) == Total(a, m) + Total(b, m)
    decreases |a|
  {
    if |a| > 0 {
      assert (a + b)[0] == a[0];
      assert (a + b)[1..] == a[1..] + b;
      TotalAppend(a[1..], b, m);
    } else {
      assert a + b == b;
    }
  }

  lemma FirstWithIdAppend(a: seq<Node>, b: seq<Node>, id: string)
    ensures FirstWithId(a + b, id) ==
      if FirstWithId(a, id) >= 0 then FirstWithId(a, id)
      else if FirstWithId(b, id) >= 0 then |a| + FirstWithId(b, id)
      else -1
  {
    var k := FirstWithId(a + b, id);
    var ka := FirstWithId(a, id);
    var kb := FirstWithId(b, id);
    if ka >= 0 {
      assert (a + b)[ka] == a[ka];
      assert forall j :: 0 <= j < ka ==> (a + b)[j] == a[j];
    } else if kb >= 0 {
      assert (a + b)[|a| + kb] == b[kb];
      assert forall j :: 0 <= j < |a| ==> (a + b)[j] == a[j];
      assert forall j :: |a| <= j < |a| + kb ==> (a + b)[j] == b[j - |a|];
    } else {
      assert forall j :: 0 <= j < |a| + |b| ==> (a + b)[j] == if j < |a| then a[j] else b[j - |a|];
    }
  }

  lemma TimedTail(ns: seq<Node>)
    requires |ns| > 0 && Timed(ns)
    ensures Timed(ns[1..])
  {
    forall i | 0 <= i < |ns[1..]|
      ensures TimedLeaf(ns[1..][i]) || (ns[1..][i].tag == "beam" && Timed(ns[1..][i].children))
    {
      assert ns[1..][i] == ns[i + 1];
    }
  }

  /** What the loop should report over the leaf events `ls`: `found` with the
      beats strictly before the first leaf carrying the id, or not `found`
      with the beats of all of them. */
  function Reference(id: string, ls: seq<Node>, m: Meter): Sum
  {
    var k := FirstWithId(ls, id);
    if k >= 0 then Sum(Total(ls[..k], m), true) else Sum(Total(ls, m), false)
  }

  /** The reference over two stretches of leaves combines as the loop does. */
  lemma ReferenceAppend(id: string, a: seq<Node>, b: seq<Node>, m: Meter)
    ensures var ra := Reference(id, a, m); var rb := Reference(id, b, m);
      Reference(id, a + b, m) == if ra.found then ra else Sum(ra.beats + rb.beats, rb.found)
  {
    FirstWithIdAppend(a, b, id);
    var ka := FirstWithId(a, id);
    var kb := FirstWithId(b, id);
    if ka >= 0 {
      assert (a + b)[..ka] == a[..ka];
    } else if kb >= 0 {
      assert (a + b)[..|a| + kb] == a + b[..kb];
      TotalAppend(a, b[..kb], m);
    } else {
      TotalAppend(a, b, m);
    }
  }

  /** The leaves one child contributes. */
  function LeavesOf(c: Node): seq<Node>
  {
    if IsEventTag(c.tag) then [c] else if c.tag == "beam" then Leaves(c.children) else []
  }

  lemma LeavesCons(ns: seq<Node>)
    requires |ns| > 0
    ensures Leaves(ns) == LeavesOf(ns[0]) + Leaves(ns[1..])
  {
  }

  lemma LeafReference(id: string, c: Node, m: Meter)
    requires TimedLeaf(c)
    ensures SumInNode(id, c, m) == Ok(Reference(id, [c], m))
  {
    assert [c][..0] == [] && [c][1..] == [];
    assert FirstWithId([c], id) == if Id(c) == Some(id) then 0 else -1;
    assert Total([c], m) == LeafBeats(c, m) + Total([], m);
  }

  /** Over notes, rests, measure rests and beams of them, the loop reports
      `found` with the beats of all leaf events strictly before the first one
      carrying the id, or not `found` with the beats of all of them. */
  lemma {:induction false} SumSeqIsPrefixTotal(id: string, ns: seq<Node>, m: Meter)
    requires Timed(ns)
    ensures SumSeq(id, ns, m) == Ok(Reference(id, Leaves(ns), m))
    decreases ns
  {
    if |ns| > 0 {
      var c := ns[0];
      TimedTail(ns);
      SumSeqIsPrefixTotal(id, ns[1..], m);
      if TimedLeaf(c) {
        LeafReference(id, c, m);
      } else {
        SumSeqIsPrefixTotal(id, c.children, m);
      }
      assert SumInNode(id, c, m) == Ok(Reference(id, LeavesOf(c), m));
      LeavesCons(ns);
      ReferenceAppend(id, LeavesOf(c), Leaves(ns[1..]), m);
    }
  }

  /** `sumUpUntil` on a layer of notes, rests, measure rests and beams. */
  lemma SumUpUntilLayer(id: string, layer: Node, m: Meter)
    requires layer.tag == "layer" && Timed(layer.children)
    ensures var ls := Leaves(layer.children); var k := FirstWithId(ls, id);
      SumUpUntil(id, layer, m) ==
        if k >= 0 then Ok(Sum(Total(ls[..k], m), true)) else Ok(Sum(Total(ls, m), false))
  {
    SumSeqIsPrefixTotal(id, layer.children, m);
  }

  /** A quarter note, another quarter note and an eighth note in 4/4:
      two beats come before the eighth. */
  lemma SumUpUntilExample()
    ensures SumUpUntil("e1",
      Node("layer", map[], [
        Node("note", map["xml:id" := "q1", "dur" := "4"], []),
        Node("note", map["xml:id" := "q2", "dur" := "4"], []),
        Node("note", map["xml:id" := "e1", "dur" := "8"], [])]),
      Meter(4.0, 4.0)) == Ok(Sum(2.0, true))
  {
    var q1 := Node("note", map["xml:id" := "q1", "dur" := "4"], []);
    var q2 := Node("note", map["xml:id" := "q2", "dur" := "4"], []);
    var e1 := Node("note", map["xml:id" := "e1", "dur" := "8"], []);
    var ns := [q1, q2, e1];
    ParseOneChar('4');
    ParseOneChar('8');
    assert ns[1..] == [q2, e1];
    assert ns[1..][1..] == [e1];
    assert SumInNode("e1", q1, Meter(4.0, 4.0)) == Ok(Sum(1.0, false));
    assert SumInNode("e1", q2, Meter(4.0, 4.0)) == Ok(Sum(1.0, false));
    assert SumInNode("e1", e1, Meter(4.0, 4.0)) == Ok(Sum(0.0, true));
    assert SumSeq("e1", [e1], Meter(4.0, 4.0)) == Ok(Sum(0.0, true));
    assert SumSeq("e1", [q2, e1], Meter(4.0, 4.0)) == Ok(Sum(1.0, true));
  }

  // ---------------------------------------------------------------------
  // id2tstamp

  /** `{ layer, meter }`: a measure's layer and, when it changes there, its
      time signature. */
  datatype LayerContext = LayerContext(layer: Node, meter: Option<Meter>)

  /** A measure-beat timestamp: `measure` measures ahead, at beat `beat`
      (counted from 1). */
  datatype MeasureBeat = MeasureBeat(measure: nat, beat: real)

  /** The time signature in force at measure `i`: the nearest one given at or
      before it. */
  function EffectiveMeter(ctx: seq<LayerContext>, i: nat): Meter
    requires i < |ctx| && ctx[0].meter.Some?
    decreases i
  {
    if ctx[i].meter.Some? then ctx[i].meter.value else EffectiveMeter(ctx, i - 1)
  }

  /** The event is not in measure `j`, and looking there does not fail. */
  predicate Misses(id: string, ctx: seq<LayerContext>, j: nat)
    requires j < |ctx| && ctx[0].meter.Some?
  {
    var s := SumUpUntil(id, ctx[j].layer, EffectiveMeter(ctx, j));
    s.Ok? && !s.value.found
  }

  /** The loop of `id2tstamp` from measure `i` on; `meter` is the meter carried
      forward, undefined before the first measure. */
  function Id2TstampFrom(id: string, ctx: seq<LayerContext>, i: nat, meter: Option<Meter>): (r: Res<MeasureBeat>)
    requires i <= |ctx|
    requires i == 0 ==> meter.None?
    requires i > 0 ==> ctx[0].meter.Some? && meter == Some(EffectiveMeter(ctx, i - 1))
    ensures i == 0 && |ctx| > 0 && ctx[0].meter.None? ==> r == Err(MissingMeter)
    ensures r.Ok? ==>
      && i <= r.value.measure < |ctx|
      && ctx[0].meter.Some?
      && SumUpUntil(id, ctx[r.value.measure].layer, EffectiveMeter(ctx, r.value.measure))
           == Ok(Sum(r.value.beat - 1.0, true))
      && forall j :: i <= j < r.value.measure ==> Misses(id, ctx, j)
    ensures r == Err(EventNotFound(id)) && i < |ctx| ==>
      ctx[0].meter.Some? && forall j :: i <= j < |ctx| ==> Misses(id, ctx, j)
    decreases |ctx| - i
  {
    if i == |ctx| then Err(EventNotFound(id))
    else
      var mt := if ctx[i].meter.Some? then ctx[i].meter else meter;
      if mt.None? then Err(MissingMeter)
      else
        assert mt.value == EffectiveMeter(ctx, i);
        match SumUpUntil(id, ctx[i].layer, mt.value)
        case Err(e) => Err(e)
        case Ok(s) =>
          if s.found then Ok(MeasureBeat(i, s.beats + 1.0))
          else
            Id2TstampFrom(id, ctx, i + 1, mt)
  }

  /** `MeiLib.id2tstamp(eventid, context)`: measure index and beat of the
      event in the first measure that contains it. */
  function Id2Tstamp(id: string, ctx: seq<LayerContext>): (r: Res<MeasureBeat>)
    ensures |ctx| > 0 && ctx[0].meter.None? ==> r == Err(MissingMeter)
    ensures |ctx| == 0 ==> r == Err(EventNotFound(id))
    ensures r.Ok? ==>
      && ctx[0].meter.Some?
      && r.value.measure < |ctx|
      && SumUpUntil(id, ctx[r.value.measure].layer, EffectiveMeter(ctx, r.value.measure))
           == Ok(Sum(r.value.beat - 1.0, true))
      && forall j :: 0 <= j < r.value.measure ==> Misses(id, ctx, j)
    ensures r == Err(EventNotFound(id)) && |ctx| > 0 ==>
      ctx[0].meter.Some? && forall j :: 0 <= j < |ctx| ==> Misses(id, ctx, j)
  {
    Id2TstampFrom(id, ctx, 0, None)
  }

  /** Conversely: when measure `i` is the first to contain the event, that is
      the answer; when no measure does and none fails, the id is not found. */
  lemma {:induction false} Id2TstampComplete(id: string, ctx: seq<LayerContext>, i: nat, b: real)
    requires |ctx| > 0 && ctx[0].meter.Some?
    requires i < |ctx| && forall j :: 0 <= j < i ==> Misses(id, ctx, j)
    requires SumUpUntil(id, ctx[i].layer, EffectiveMeter(ctx, i)) == Ok(Sum(b, true))
    ensures Id2Tstamp(id, ctx) == Ok(MeasureBeat(i, b + 1.0))
  {
    Id2TstampFromComplete(id, ctx, 0, None, i, b);
  }

  lemma {:induction false} Id2TstampFromComplete(id: string, ctx: seq<LayerContext>, k: nat, meter: Option<Meter>, i: nat, b: real)
    requires |ctx| > 0 && ctx[0].meter.Some?
    requires k <= i < |ctx| && forall j :: k <= j < i ==> Misses(id, ctx, j)
    requires k == 0 ==> meter.None?
    requires k > 0 ==> meter == Some(EffectiveMeter(ctx, k - 1))
    requires SumUpUntil(id, ctx[i].layer, EffectiveMeter(ctx, i)) == Ok(Sum(b, true))
    ensures Id2TstampFrom(id, ctx, k, meter) == Ok(MeasureBeat(i, b + 1.0))
    decreases i - k
  {
    var mt := if ctx[k].meter.Some? then ctx[k].meter else meter;
    assert mt == Some(EffectiveMeter(ctx, k));
    if k < i {
      assert Misses(id, ctx, k);
      Id2TstampFromComplete(id, ctx, k + 1, mt, i, b);
    }
  }

  lemma {:induction false} Id2TstampNotFound(id: string, ctx: seq<LayerContext>)
    requires |ctx| > 0 && ctx[0].meter.Some?
    requires forall j :: 0 <= j < |ctx| ==> Misses(id, ctx, j)
    ensures Id2Tstamp(id, ctx) == Err(EventNotFound(id))
  {
    Id2TstampFromNotFound(id, ctx, 0, None);
  }

  lemma {:induction false} Id2TstampFromNotFound(id: string, ctx: seq<LayerContext>, k: nat, meter: Option<Meter>)
    requires |ctx| > 0 && ctx[0].meter.Some?
    requires k <= |ctx| && forall j :: k <= j < |ctx| ==> Misses(id, ctx, j)
    requires k == 0 ==> meter.None?
    requires k > 0 ==> meter == Some(EffectiveMeter(ctx, k - 1))
    ensures Id2TstampFrom(id, ctx, k, meter) == Err(EventNotFound(id))
    decreases |ctx| - k
  {
    if k < |ctx| {
      var mt := if ctx[k].meter.Some? then ctx[k].meter else meter;
      assert mt == Some(EffectiveMeter(ctx, k));
      assert Misses(id, ctx, k);
      Id2TstampFromNotFound(id, ctx, k + 1, mt);
    }
  }

  // ---------------------------------------------------------------------
  // tstamp2id

  /** Where the search loop of `tstamp2id` stops: the event inspected last,
      its signed distance `dist` and that of the event before, `prevDist`
      (`None` for NaN or for no previous event). */
  datatype Stop = Stop(index: nat, dist: Option<real>, prevDist: Option<real>)

  /** `durationOf` of every event, in order. The loop only looks at the
      entries of the events it inspects, so a failure further on is never
      raised. */
  function Lengths(evs: seq<Node>, m: Meter): (lens: seq<Res<real>>)
    ensures |lens| == |evs|
    ensures forall i :: 0 <= i < |evs| ==> lens[i] == DurationOf(evs[i], m)
  {
    if |evs| == 0 then [] else [DurationOf(evs[0], m)] + Lengths(evs[1..], m)
  }

  /** The search loop, inspecting event `k` whose onset is `acc + 1` and whose
      `durationOf` is `lens[k]`, which may fail. The loop goes on while more
      events remain and the timestamp lies strictly after the event's onset;
      a NaN timestamp stops it at the first event. */
  function Search(ts: Option<real>, lens: seq<Res<real>>, k: nat, acc: real, prevDist: Option<real>): (r: Res<Stop>)
    requires k < |lens|
    ensures r.Ok? ==> k <= r.value.index < |lens|
    decreases |lens| - k
  {
    var dist := if ts.Some? then Some(ts.value - (acc + 1.0)) else None;
    var d :- lens[k];
    if k + 1 < |lens| && dist.Some? && dist.value > 0.0 then Search(ts, lens, k + 1, acc + d, dist)
    else Ok(Stop(k, dist, prevDist))
  }

  /** When the timestamp falls before the last inspected event, the previous
      event wins if it is strictly closer. */
  function Winner(s: Stop): nat
  {
    if s.dist.Some? && s.dist.value < 0.0 && s.index > 0 && s.prevDist.Some? && s.prevDist.value < -s.dist.value
    then s.index - 1
    else s.index
  }

  /** The chosen event: its index, its xml:id, and whether the id was freshly
      generated (the source writes it into the document). */
  datatype Hit = Hit(id: string, index: nat, generated: bool)

  /** `tstamp2id` over the event list the enumerator yields; `newId` is the id
      `createPseudoUUID` would return. `None` is `undefined`. */
  function Tstamp2IdOn(ts: Option<real>, evs: seq<Node>, m: Meter, newId: string): (r: Res<Option<Hit>>)
    ensures |evs| == 0 ==> r == Ok(None)
    ensures r.Ok? && r.value.None? ==> |evs| == 0
    ensures r.Ok? && r.value.Some? ==>
      && r.value.value.index < |evs|
      && (r.value.value.generated <==> !Truthy(Id(evs[r.value.value.index])))
      && (r.value.value.generated ==> r.value.value.id == newId)
      && (!r.value.value.generated ==> Id(evs[r.value.value.index]) == Some(r.value.value.id))
    ensures ts.None? && |evs| > 0 && DurationOf(evs[0], m).Ok? ==> r.Ok? && r.value.Some? && r.value.value.index == 0
  {
    if |evs| == 0 then Ok(None)
    else
      var s :- Search(ts, Lengths(evs, m), 0, 0.0, None);
      var w := Winner(s);
      var a := Id(evs[w]);
      if Truthy(a) then Ok(Some(Hit(a.value, w, false))) else Ok(Some(Hit(newId, w, true)))
  }

  /** The events of a layer (or selection of layers) in enumeration order. */
  function Events(layer: Selection): (evs: seq<Node>)
    ensures Init(Some(layer)) == Ok(EventEnumerator(evs))
  {
    Run(ChildrenOf(layer), true)
  }

  /** `MeiLib.tstamp2id(tstamp, layer, meter)`. */
  function Tstamp2Id(tstamp: string, layer: Selection, m: Meter, newId: string): Res<Option<Hit>>
  {
    Tstamp2IdOn(ParseNumber(tstamp), Events(layer), m, newId)
  }

  // ---------------------------------------------------------------------
  // Reference: the nearest event by 1-based cumulative onsets

  /** Every event has a computable, positive length. */
  predicate Timeline(lens: seq<Res<real>>) {
    forall i :: 0 <= i < |lens| ==> lens[i].Ok? && lens[i].value > 0.0
  }

  /** The onset of event `k`: 1 plus the lengths of the events before it. */
  function Pos(lens: seq<Res<real>>, k: nat): real
    requires k <= |lens| && Timeline(lens)
    decreases k
  {
    if k == 0 then 1.0 else Pos(lens, k - 1) + lens[k - 1].value
  }

  /** Onsets strictly increase. */
  lemma {:induction false} PosIncreasing(lens: seq<Res<real>>, i: nat, j: nat)
    requires Timeline(lens) && i <= |lens| && j <= |lens|
    ensures i < j ==> Pos(lens, i) < Pos(lens, j)
    decreases j
  {
    if i + 1 < j {
      PosIncreasing(lens, i, j - 1);
    }
  }

  /** With a numeric timestamp `t`, the loop stops at the first event whose
      onset is not before `t`, or at the last event. */
  lemma {:induction false} SearchStops(t: real, lens: seq<Res<real>>, k: nat, acc: real, prevDist: Option<real>)
    requires Timeline(lens) && k < |lens| && acc + 1.0 == Pos(lens, k)
    ensures var r := Search(Some(t), lens, k, acc, prevDist);
      && r.Ok?
      && k <= r.value.index < |lens|
      && (forall i :: k <= i < r.value.index ==> t > Pos(lens, i))
      && (t <= Pos(lens, r.value.index) || r.value.index == |lens| - 1)
      && r.value.dist == Some(t - Pos(lens, r.value.index))
      && r.value.prevDist == if r.value.index == k then prevDist else Some(t - Pos(lens, r.value.index - 1))
    decreases |lens| - k
  {
    if k + 1 < |lens| && t - Pos(lens, k) > 0.0 {
      SearchStops(t, lens, k + 1, acc + lens[k].value, Some(t - Pos(lens, k)));
    }
  }

  /** The index `tstamp2id` returns is the winner of the loop. */
  lemma IndexIsWinner(ts: Option<real>, evs: seq<Node>, m: Meter, newId: string, s: Stop)
    requires |evs| > 0 && Search(ts, Lengths(evs, m), 0, 0.0, None) == Ok(s)
    ensures Tstamp2IdOn(ts, evs, m, newId).Ok? && Tstamp2IdOn(ts, evs, m, newId).value.Some?
    ensures Tstamp2IdOn(ts, evs, m, newId).value.value.index == Winner(s)
  {
  }

  /** Where a search from the first event stops, in terms of onsets: at the
      first event whose onset is not before `t`, or at the last event, with
      the signed distances of it and of the event before. */
  predicate StopsAt(t: real, lens: seq<Res<real>>, s: Stop)
    requires Timeline(lens)
  {
    && 0 <= s.index < |lens|
    && (forall i :: 0 <= i < s.index ==> t > Pos(lens, i))
    && (t <= Pos(lens, s.index) || s.index == |lens| - 1)
    && s.dist == Some(t - Pos(lens, s.index))
    && s.prevDist == if s.index == 0 then None else Some(t - Pos(lens, s.index - 1))
  }

  /** Where the loop started at the first event stops, in terms of onsets. */
  lemma SearchFromStart(t: real, lens: seq<Res<real>>) returns (s: Stop)
    requires Timeline(lens) && |lens| > 0
    ensures Search(Some(t), lens, 0, 0.0, None) == Ok(s)
    ensures StopsAt(t, lens, s)
  {
    assert 0.0 + 1.0 == Pos(lens, 0);
    SearchStops(t, lens, 0, 0.0, None);
    s := Search(Some(t), lens, 0, 0.0, None).value;
  }

  /** Where the loop stops for a numeric timestamp, in terms of onsets. */
  lemma HitIsWinner(t: real, evs: seq<Node>, m: Meter, newId: string) returns (s: Stop)
    requires Timeline(Lengths(evs, m)) && |evs| > 0
    ensures Tstamp2IdOn(Some(t), evs, m, newId).Ok? && Tstamp2IdOn(Some(t), evs, m, newId).value.Some?
    ensures Tstamp2IdOn(Some(t), evs, m, newId).value.value.index == Winner(s)
    ensures StopsAt(t, Lengths(evs, m), s)
  {
    s := SearchFromStart(t, Lengths(evs, m));
    IndexIsWinner(Some(t), evs, m, newId, s);
  }

  /** The winner in terms of onsets, at or before the first onset. */
  lemma WinnerFirst(t: real, lens: seq<Res<real>>, s: Stop)
    requires Timeline(lens) && |lens| > 0 && StopsAt(t, lens, s) && t <= Pos(lens, 0)
    ensures Winner(s) == 0
  {
  }

  /** The winner in terms of onsets, at or after the last onset. */
  lemma WinnerLast(t: real, lens: seq<Res<real>>, s: Stop)
    requires Timeline(lens) && |lens| > 0 && StopsAt(t, lens, s) && t >= Pos(lens, |lens| - 1)
    ensures Winner(s) == |lens| - 1
  {
    if s.index < |lens| - 1 {
      PosIncreasing(lens, s.index, |lens| - 1);
      assert false;
    }
    assert s.dist.value >= 0.0;
  }

  /** The winner in terms of onsets, on an exact hit. */
  lemma WinnerExact(t: real, lens: seq<Res<real>>, s: Stop, k: nat)
    requires Timeline(lens) && k < |lens| && StopsAt(t, lens, s) && t == Pos(lens, k)
    ensures Winner(s) == k
  {
    if s.index < k {
      PosIncreasing(lens, s.index, k);
    }
    assert s.index == k;
    assert s.dist == Some(0.0);
  }

  /** The winner in terms of onsets, strictly between two onsets. */
  lemma WinnerBetween(t: real, lens: seq<Res<real>>, s: Stop, k: nat)
    requires Timeline(lens) && k + 1 < |lens| && StopsAt(t, lens, s)
    requires Pos(lens, k) < t < Pos(lens, k + 1)
    ensures Winner(s) == k || Winner(s) == k + 1
    ensures Winner(s) == k <==> t - Pos(lens, k) < Pos(lens, k + 1) - t
  {
    if s.index < k + 1 {
      PosIncreasing(lens, s.index, k);
    }
    assert s.index == k + 1;
    assert s.dist == Some(t - Pos(lens, k + 1));
    assert s.prevDist == Some(t - Pos(lens, k));
  }

  /** At or before the first onset, the first event wins. */
  lemma NearestFirst(t: real, evs: seq<Node>, m: Meter, newId: string)
    requires Timeline(Lengths(evs, m)) && |evs| > 0 && t <= Pos(Lengths(evs, m), 0)
    ensures Tstamp2IdOn(Some(t), evs, m, newId).Ok? && Tstamp2IdOn(Some(t), evs, m, newId).value.Some?
    ensures Tstamp2IdOn(Some(t), evs, m, newId).value.value.index == 0
  {
    var s := HitIsWinner(t, evs, m, newId);
    WinnerFirst(t, Lengths(evs, m), s);
  }

  /** At or after the last onset, the last event wins. */
  lemma NearestLast(t: real, evs: seq<Node>, m: Meter, newId: string)
    requires Timeline(Lengths(evs, m)) && |evs| > 0 && t >= Pos(Lengths(evs, m), |evs| - 1)
    ensures Tstamp2IdOn(Some(t), evs, m, newId).Ok? && Tstamp2IdOn(Some(t), evs, m, newId).value.Some?
    ensures Tstamp2IdOn(Some(t), evs, m, newId).value.value.index == |evs| - 1
  {
    var s := HitIsWinner(t, evs, m, newId);
    assert |Lengths(evs, m)| == |evs|;
    WinnerLast(t, Lengths(evs, m), s);
  }

  /** On an exact hit, the event hit wins. */
  lemma NearestExact(t: real, evs: seq<Node>, m: Meter, newId: string, k: nat)
    requires Timeline(Lengths(evs, m)) && k < |evs| && t == Pos(Lengths(evs, m), k)
    ensures Tstamp2IdOn(Some(t), evs, m, newId).Ok? && Tstamp2IdOn(Some(t), evs, m, newId).value.Some?
    ensures Tstamp2IdOn(Some(t), evs, m, newId).value.value.index == k
  {
    var s := HitIsWinner(t, evs, m, newId);
    WinnerExact(t, Lengths(evs, m), s, k);
  }

  /** Strictly between two consecutive onsets, the earlier event wins exactly
      when it is strictly closer; on a tie the later one wins. */
  lemma NearestBetween(t: real, evs: seq<Node>, m: Meter, newId: string, k: nat)
    requires Timeline(Lengths(evs, m)) && k + 1 < |evs|
    requires Pos(Lengths(evs, m), k) < t < Pos(Lengths(evs, m), k + 1)
    ensures Tstamp2IdOn(Some(t), evs, m, newId).Ok? && Tstamp2IdOn(Some(t), evs, m, newId).value.Some?
    ensures var w := Tstamp2IdOn(Some(t), evs, m, newId).value.value.index;
      && (w == k <==> t - Pos(Lengths(evs, m), k) < Pos(Lengths(evs, m), k + 1) - t)
      && (w == k || w == k + 1)
  {
    var s := HitIsWinner(t, evs, m, newId);
    WinnerBetween(t, Lengths(evs, m), s, k);
  }

  // ---------------------------------------------------------------------
  // Writing the new id back

  /** Giving an event an xml:id does not change its length. */
  lemma SetIdKeepsDuration(n: Node, id: string, m: Meter)
    ensures DurationOf(SetId(n, id), m) == DurationOf(n, m)
  {
    assert AttrT(SetId(n, id), "dur") == AttrT(n, "dur");
    assert SetId(n, id).children == n.children;
  }

  /** Once the winner carries the id `tstamp2id` returned, asking again with
      the same timestamp yields the same event and id, and generates nothing. */
  lemma Tstamp2IdStable(ts: Option<real>, evs: seq<Node>, m: Meter, newId: string, otherId: string)
    requires newId != ""
    requires Tstamp2IdOn(ts, evs, m, newId).Ok? && Tstamp2IdOn(ts, evs, m, newId).value.Some?
    ensures var h := Tstamp2IdOn(ts, evs, m, newId).value.value;
      var evs' := evs[h.index := SetId(evs[h.index], h.id)];
      Tstamp2IdOn(ts, evs', m, otherId) == Ok(Some(Hit(h.id, h.index, false)))
  {
    var h := Tstamp2IdOn(ts, evs, m, newId).value.value;
    var evs' := evs[h.index := SetId(evs[h.index], h.id)];
    forall i | 0 <= i < |evs|
      ensures DurationOf(evs'[i], m) == DurationOf(evs[i], m)
    {
      SetIdKeepsDuration(evs[i], h.id, m);
    }
    assert Lengths(evs', m) == Lengths(evs, m);
    assert Id(evs'[h.index]) == Some(h.id);
  }
}
