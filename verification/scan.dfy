/** The per-measure link bookkeeping of the converter: `<tie>`, `<slur>` and
    `<hairpin>` elements become event links, an end timestamp in a later
    measure is filed in the forward-reference table `unresolvedTStamp2`, and
    visiting a layer hands every link waiting for it its context. */
module Scan {
  import opened Wrappers
  import opened Numbers
  import opened Mei
  import opened Durations
  import opened Temporal
  import opened Links
  import opened TieSlur
  import opened Staves
  import opened Converters

  /** The three linking elements and the list each is collected in. */
  datatype Element = TieElement | SlurElement | HairpinElement

  function ElementName(e: Element): string
  {
    match e
    case TieElement => "tie"
    case SlurElement => "slur"
    case HairpinElement => "hairpin"
  }

  /** A link waiting in the forward-reference table: which list it is in and
      where. The source stores the link object itself, which the list shares. */
  datatype LinkRef = LinkRef(element: Element, index: nat)

  /** The scan state: the tie and slur lists (with the fresh-id counter), the
      hairpin list, `unresolvedTStamp2`, and the staff table. */
  datatype ScanState = ScanState(chains: Chains, hairpins: seq<EventLink>, pending: map<string, seq<LinkRef>>, staves: Staves)

  function Container(s: ScanState, e: Element): seq<EventLink>
  {
    match e
    case TieElement => s.chains.ties
    case SlurElement => s.chains.slurs
    case HairpinElement => s.hairpins
  }

  /** Replaces one list; everything else stays. */
  function WithContainer(s: ScanState, e: Element, links: seq<EventLink>): (r: ScanState)
    ensures Container(r, e) == links
    ensures forall e' :: e' != e ==> Container(r, e') == Container(s, e')
    ensures r.pending == s.pending && r.staves == s.staves && r.chains.used == s.chains.used
  {
    match e
    case TieElement => s.(chains := s.chains.(ties := links))
    case SlurElement => s.(chains := s.chains.(slurs := links))
    case HairpinElement => s.(hairpins := links)
  }

  /** Every waiting link is in its list. */
  predicate Valid(s: ScanState) {
    forall k, rf :: k in s.pending && rf in s.pending[k] ==> rf.index < |Container(s, rf.element)|
  }

  // ---------------------------------------------------------------------
  // Locations

  /** A staff number and a layer number, as attribute text. */
  datatype Location = Location(staff: string, layer: string)

  /** An attribute that defaults to "1" when absent or empty. */
  function OrOne(a: Option<string>): (r: string)
    ensures Truthy(a) ==> r == a.value
    ensures !Truthy(a) ==> r == "1"
  {
    if Truthy(a) then a.value else "1"
  }

  /** `link_staffInfo(lnkelem)`: @staff and @layer of a linking element. */
  function LinkStaffInfo(lnk: Node): Location
  {
    Location(OrOne(Attr(lnk, "staff")), OrOne(Attr(lnk, "layer")))
  }

  /** The key of the forward-reference table: measure, staff and layer joined
      with ":". */
  function LocationKey(measure: string, loc: Location): string
  {
    measure + ":" + loc.staff + ":" + loc.layer
  }

  /** `staffInfoArray[staff_n].staffDef` for a staff number given as text:
      only the canonical numeral of a known staff finds a definition. */
  function StaffDefOf(staves: Staves, staffN: string): (r: Res<Node>)
    ensures forall k: nat :: staffN == NatToString(k) && k in staves ==> r == Ok(staves[k].def)
    ensures r.Ok? ==> exists k: nat :: staffN == NatToString(k) && k in staves && r.value == staves[k].def
  {
    match StringIndex(staffN)
    case None =>
      assert forall j: nat :: staffN != NatToString(j) by {
        forall j: nat ensures staffN != NatToString(j) {
          StringIndexIff(staffN, j);
        }
      }
      Err(MissingStaffDef)
    case Some(k) =>
      StringIndexIff(staffN, k);
      assert forall j: nat :: staffN == NatToString(j) ==> j == k by {
        forall j: nat | staffN == NatToString(j) ensures j == k {
          StringIndexIff(staffN, j);
        }
      }
      if k in staves then Ok(staves[k].def) else Err(MissingStaffDef)
  }

  // ---------------------------------------------------------------------
  // local_tstamp2id

  /** The layer a linking element refers to in `measure`: the first layer
      with the element's layer number in the staves with its staff number;
      failing that, all layers of those staves when the first has no number
      (or there is none); otherwise "Cannot find layer". */
  function FindLayer(measure: Node, loc: Location): (r: Res<Selection>)
    ensures var staves := WithAttrValue(Find(measure, "staff"), "n", loc.staff);
      var cands := FindIn(staves, "layer");
      var named := WithAttrValue(cands, "n", loc.layer);
      && (|named| > 0 ==> r == Ok([named[0]]))
      && (|named| == 0 ==> (r.Ok? <==> |cands| == 0 || !Truthy(Attr(cands[0], "n"))))
      && (|named| == 0 && r.Ok? ==> r.value == cands)
  {
    var staves := WithAttrValue(Find(measure, "staff"), "n", loc.staff);
    var cands := FindIn(staves, "layer");
    var named := WithAttrValue(cands, "n", loc.layer);
    if |named| > 0 then Ok([named[0]])
    else if |cands| == 0 || !Truthy(Attr(cands[0], "n")) then Ok(cands)
    else Err(CannotFindLayer)
  }

  /** The meter of a staff definition when both parts are non-zero numbers;
      otherwise "Cannot determine meter". */
  function LinkMeter(def: Node): (r: Res<Meter>)
    ensures r.Ok? <==>
      NumberTruthy(NumberOf(Attr(def, "meter.count"))) && NumberTruthy(NumberOf(Attr(def, "meter.unit")))
    ensures r.Ok? ==> MeterOf(Attr(def, "meter.count"), Attr(def, "meter.unit")) == Some(r.value)
    ensures r.Ok? ==> r.value.count != 0.0 && r.value.unit != 0.0
  {
    var count := NumberOf(Attr(def, "meter.count"));
    var unit := NumberOf(Attr(def, "meter.unit"));
    if NumberTruthy(count) && NumberTruthy(unit) then Ok(Meter(count.value, unit.value))
    else Err(MissingMeter)
  }

  /** `local_tstamp2id(tstamp, lnkelem, measure)`: `tstamp2id` in the layer
      the element refers to, with its staff's meter. */
  function LocalTstamp2Id(tstamp: string, lnk: Node, measure: Node, staves: Staves, ids: IdSource, used: nat): (r: Res<(Option<string>, nat)>)
    ensures FindLayer(measure, LinkStaffInfo(lnk)).Err? ==> r.Err?
    ensures StaffDefOf(staves, LinkStaffInfo(lnk).staff).Err? ==> r.Err?
    ensures r.Ok? ==> r.value.1 == used || r.value.1 == used + 1
  {
    var loc := LinkStaffInfo(lnk);
    var layer :- FindLayer(measure, loc);
    var def :- StaffDefOf(staves, loc.staff);
    var m :- LinkMeter(def);
    Resolve(tstamp, LinkContext(layer, Some(m)), ids, used)
  }

  /** The answer of `local_tstamp2id` is `None` exactly when the layer has no
      events; otherwise it is the id of one of its events or the next fresh
      id, which is then used up. The staff's meter must be known. */
  lemma LocalTstamp2IdAnswer(tstamp: string, lnk: Node, measure: Node, staves: Staves, ids: IdSource, used: nat)
    requires LocalTstamp2Id(tstamp, lnk, measure, staves, ids, used).Ok?
    ensures var r := LocalTstamp2Id(tstamp, lnk, measure, staves, ids, used).value;
      var layer := FindLayer(measure, LinkStaffInfo(lnk)).value;
      var def := StaffDefOf(staves, LinkStaffInfo(lnk).staff).value;
      && LinkMeter(def).Ok?
      && (r.0.None? <==> |Events(layer)| == 0)
      && (r.0.None? ==> r.1 == used)
      && (r.0.Some? ==>
            || (r.0.value == ids(used) && r.1 == used + 1)
            || (r.1 == used && exists e :: e in Events(layer) && Id(e) == r.0))
  {
    var layer := FindLayer(measure, LinkStaffInfo(lnk)).value;
    var def := StaffDefOf(staves, LinkStaffInfo(lnk).staff).value;
    var m := LinkMeter(def).value;
    match Tstamp2Id(tstamp, layer, m, ids(used))
    case Err(_) =>
    case Ok(None) =>
    case Ok(Some(h)) =>
      var evs := Events(layer);
      if !h.generated {
        assert evs[h.index] in evs;
      }
  }

  // ---------------------------------------------------------------------
  // extract_linkingElements

  /** The key of the measure `ahead` measures after the one numbered
      `measureN`: `(Number(measure_n) + measures_ahead).toString()`, which is
      "NaN" when the measure number is not a number. */
  function TargetKey(measureN: Option<string>, ahead: real, loc: Location): (r: Res<string>)
    ensures NumberOf(measureN).None? ==> r == Ok(LocationKey("NaN", loc))
    ensures NumberOf(measureN).Some? ==> (r.Ok? <==> IsInteger(NumberOf(measureN).value + ahead))
  {
    match NumberOf(measureN)
    case None => Ok(LocationKey("NaN", loc))
    case Some(x) =>
      var t := x + ahead;
      if IsInteger(t) then Ok(LocationKey(IntToString(t.Floor), loc))
      else Err(UnsupportedValue("measure number"))
  }

  /** With an integer measure number n and an integer distance k, the key
      names measure n+k in decimal. */
  lemma TargetKeyOfIntegers(measureN: Option<string>, n: int, k: int, loc: Location)
    requires NumberOf(measureN) == Some(n as real)
    ensures TargetKey(measureN, k as real, loc) == Ok(LocationKey(IntToString(n + k), loc))
  {
    assert (n as real + k as real).Floor == n + k;
  }

  /** The start of a link: @startid, else the event at @tstamp in this
      measure, else nothing. */
  function StartOf(l: EventLink, lnk: Node, measure: Node, staves: Staves, ids: IdSource, used: nat): (r: Res<(EventLink, nat)>)
    ensures r.Ok? ==> r.value.1 >= used && r.value.0 == l.(first := r.value.0.first)
    ensures Truthy(Attr(lnk, "startid")) ==> r == Ok((SetFirstId(l, Attr(lnk, "startid")), used))
    ensures !Truthy(Attr(lnk, "startid")) && !Truthy(Attr(lnk, "tstamp")) ==> r == Ok((l, used))
  {
    var startid := Attr(lnk, "startid");
    if Truthy(startid) then Ok((SetFirstId(l, startid), used))
    else
      var tstamp := Attr(lnk, "tstamp");
      if Truthy(tstamp) then
        var (id, used') :- LocalTstamp2Id(tstamp.value, lnk, measure, staves, ids, used);
        Ok((SetFirstId(l, id), used'))
      else Ok((l, used))
  }

  /** How many measures ahead @tstamp2 points, when that is a positive number. */
  function Ahead(tstamp2: string): (r: Option<real>)
    ensures r.Some? ==> r.value > 0.0 && ParseNumber(MeasurePartOf(tstamp2)) == r
    ensures r.None? ==> ParseNumber(MeasurePartOf(tstamp2)).None? || ParseNumber(MeasurePartOf(tstamp2)).value <= 0.0
  {
    var a := ParseNumber(MeasurePartOf(tstamp2));
    if a.Some? && a.value > 0.0 then a else None
  }

  /** The end of a link: @endid; else, when @tstamp2 points to a later measure,
      the beat part is kept as the end's timestamp and the table key is
      returned; else the event at that beat in this measure; else nothing. */
  function EndOf(l: EventLink, lnk: Node, measure: Node, staves: Staves, ids: IdSource, used: nat): (r: Res<(EventLink, nat, Option<string>)>)
    requires !Truthy(l.last.xmlid)
    ensures r.Ok? ==> r.value.1 >= used && r.value.0 == l.(last := r.value.0.last)
    ensures Truthy(Attr(lnk, "endid")) ==> r == Ok((SetLastId(l, Attr(lnk, "endid")), used, None))
    ensures !Truthy(Attr(lnk, "endid")) && !Truthy(Attr(lnk, "tstamp2")) ==> r == Ok((l, used, None))
    ensures r.Ok? && r.value.2.Some? ==> !Truthy(Attr(lnk, "endid")) && Truthy(Attr(lnk, "tstamp2"))
  {
    var endid := Attr(lnk, "endid");
    if Truthy(endid) then Ok((SetLastId(l, endid), used, None))
    else
      var tstamp2 := Attr(lnk, "tstamp2");
      if !Truthy(tstamp2) then Ok((l, used, None))
      else
        var t2 := tstamp2.value;
        match Ahead(t2)
        case Some(a) =>
          // `setLastTStamp` on an end without an id only stores the timestamp.
          var l' := l.(last := l.last.(tstamp := Some(BeatPartOf(t2))));
          assert SetLastTStamp(l, BeatPartOf(t2), ids, used) == Ok((l', used));
          var key :- TargetKey(Attr(measure, "n"), a, LinkStaffInfo(lnk));
          Ok((l', used, Some(key)))
        case None =>
          var (id, used') :- LocalTstamp2Id(BeatPartOf(t2), lnk, measure, staves, ids, used);
          Ok((SetLastId(l, id), used', None))
  }

  /** Without @startid, the start is the event at @tstamp in this measure. */
  lemma StartAtTstamp(l: EventLink, lnk: Node, measure: Node, staves: Staves, ids: IdSource, used: nat)
    requires !Truthy(Attr(lnk, "startid")) && Truthy(Attr(lnk, "tstamp"))
    ensures match LocalTstamp2Id(Attr(lnk, "tstamp").value, lnk, measure, staves, ids, used)
      case Err(e) => StartOf(l, lnk, measure, staves, ids, used) == Err(e)
      case Ok((id, used')) => StartOf(l, lnk, measure, staves, ids, used) == Ok((SetFirstId(l, id), used'))
  {
  }

  /** An end in a later measure stays a timestamp and yields the table key
      of that measure. */
  lemma EndAhead(l: EventLink, lnk: Node, measure: Node, staves: Staves, ids: IdSource, used: nat)
    requires !Truthy(l.last.xmlid)
    requires !Truthy(Attr(lnk, "endid")) && Truthy(Attr(lnk, "tstamp2")) && Ahead(Attr(lnk, "tstamp2").value).Some?
    ensures var t2 := Attr(lnk, "tstamp2").value;
      match TargetKey(Attr(measure, "n"), Ahead(t2).value, LinkStaffInfo(lnk))
      case Err(e) => EndOf(l, lnk, measure, staves, ids, used) == Err(e)
      case Ok(key) => EndOf(l, lnk, measure, staves, ids, used) == Ok((l.(last := l.last.(tstamp := Some(BeatPartOf(t2)))), used, Some(key)))
  {
  }

  /** An end in this measure is the event at the beat part, looked up now. */
  lemma EndHere(l: EventLink, lnk: Node, measure: Node, staves: Staves, ids: IdSource, used: nat)
    requires !Truthy(l.last.xmlid)
    requires !Truthy(Attr(lnk, "endid")) && Truthy(Attr(lnk, "tstamp2")) && Ahead(Attr(lnk, "tstamp2").value).None?
    ensures match LocalTstamp2Id(BeatPartOf(Attr(lnk, "tstamp2").value), lnk, measure, staves, ids, used)
      case Err(e) => EndOf(l, lnk, measure, staves, ids, used) == Err(e)
      case Ok((id, used')) => EndOf(l, lnk, measure, staves, ids, used) == Ok((SetLastId(l, id), used', None))
  {
    var t2 := Attr(lnk, "tstamp2").value;
    assert Attr(lnk, "tstamp2") == Some(t2);
    assert Ahead(t2).None?;
  }

  /** The link a hairpin starts from: @form is mandatory, @place is kept. */
  function NewElementLink(e: Element, lnk: Node): (r: Res<EventLink>)
    ensures e != HairpinElement ==> r == Ok(NewLink(None, None))
    ensures e == HairpinElement ==> (r.Ok? <==> Truthy(Attr(lnk, "form")))
    ensures r.Ok? ==> r.value.first == NewReference(None) && r.value.last == NewReference(None) && r.value.context.None?
    ensures r.Ok? && e == HairpinElement ==> r.value.params == HairpinParams(Attr(lnk, "form").value, Attr(lnk, "place"))
  {
    var l := NewLink(None, None);
    if e == HairpinElement then
      var form := Attr(lnk, "form");
      if !Truthy(form) then Err(MissingAttribute("form"))
      else Ok(SetParams(l, HairpinParams(form.value, Attr(lnk, "place"))))
    else Ok(l)
  }

  /** Appends a waiting link to the table entry for `key`, creating it. */
  function File(pending: map<string, seq<LinkRef>>, key: string, rf: LinkRef): (r: map<string, seq<LinkRef>>)
    ensures r.Keys == pending.Keys + {key}
    ensures r[key] == (if key in pending then pending[key] else []) + [rf]
    ensures forall k :: k in pending && k != key ==> r[k] == pending[k]
  {
    pending[key := (if key in pending then pending[key] else []) + [rf]]
  }

  /** One iteration of `extract_linkingElements`: the element becomes a link
      at the end of its list, and is filed when its end is in a later measure. */
  function ExtractLink(e: Element, lnk: Node, measure: Node, s: ScanState, ids: IdSource): (r: Res<ScanState>)
  {
    var l0 :- NewElementLink(e, lnk);
    var (l1, used1) :- StartOf(l0, lnk, measure, s.staves, ids, s.chains.used);
    var (l2, used2, key) :- EndOf(l1, lnk, measure, s.staves, ids, used1);
    Ok(Push(s, e, l2, used2, key))
  }

  /** The state after a new link `l` is pushed onto the list of `e` and,
      when there is a key, filed under it. */
  function Push(s: ScanState, e: Element, l: EventLink, used: nat, key: Option<string>): (r: ScanState)
    ensures Container(r, e) == Container(s, e) + [l]
    ensures forall e' :: e' != e ==> Container(r, e') == Container(s, e')
    ensures r.staves == s.staves && r.chains.used == used
    ensures key.None? ==> r.pending == s.pending
    ensures key.Some? ==> r.pending == File(s.pending, key.value, LinkRef(e, |Container(s, e)|))
  {
    var s1 := WithContainer(s, e, Container(s, e) + [l]);
    var s2 := s1.(chains := s1.chains.(used := used));
    assert Container(s2, e) == Container(s1, e);
    assert forall e' :: Container(s2, e') == Container(s1, e');
    match key
    case None => s2
    case Some(k) => s2.(pending := File(s.pending, k, LinkRef(e, |Container(s, e)|)))
  }

  /** Pushing a link keeps the table consistent. */
  lemma PushValid(s: ScanState, e: Element, l: EventLink, used: nat, key: Option<string>)
    requires Valid(s)
    ensures Valid(Push(s, e, l, used, key))
  {
    var r := Push(s, e, l, used, key);
    forall k, rf | k in r.pending && rf in r.pending[k]
      ensures rf.index < |Container(r, rf.element)|
    {
      if key.Some? && k == key.value && rf !in (if k in s.pending then s.pending[k] else []) {
        assert rf == LinkRef(e, |Container(s, e)|);
      }
    }
  }

  /** `extract_linkingElements(measure, element_name, container)` over the
      elements found in the measure. */
  function ExtractAll(e: Element, lnks: seq<Node>, measure: Node, s: ScanState, ids: IdSource): Res<ScanState>
  {
    if |lnks| == 0 then Ok(s)
    else
      var s1 :- ExtractLink(e, lnks[0], measure, s, ids);
      ExtractAll(e, lnks[1..], measure, s1, ids)
  }

  function ExtractLinkingElements(e: Element, measure: Node, s: ScanState, ids: IdSource): Res<ScanState>
  {
    ExtractAll(e, Find(measure, ElementName(e)), measure, s, ids)
  }

  /** Ties, then slurs, then hairpins, as each measure is finished. */
  function MeasureLinkingElements(measure: Node, s: ScanState, ids: IdSource): Res<ScanState>
  {
    var s1 :- ExtractLinkingElements(TieElement, measure, s, ids);
    var s2 :- ExtractLinkingElements(SlurElement, measure, s1, ids);
    ExtractLinkingElements(HairpinElement, measure, s2, ids)
  }

  // ---------------------------------------------------------------------
  // extract_events: draining the table

  /** `r` is `s` with the context `c` given to exactly the links `rfs` refers
      to: every list keeps its length and every link its references and
      parameters; the table, the staff table and the id counter stay. */
  predicate DeliveredTo(s: ScanState, r: ScanState, rfs: seq<LinkRef>, c: LinkContext) {
    && r.pending == s.pending && r.staves == s.staves && r.chains.used == s.chains.used
    && (forall e :: |Container(r, e)| == |Container(s, e)|)
    && (forall e, i :: 0 <= i < |Container(s, e)| ==>
          && Container(r, e)[i].first == Container(s, e)[i].first
          && Container(r, e)[i].last == Container(s, e)[i].last
          && Container(r, e)[i].params == Container(s, e)[i].params
          && Container(r, e)[i].context == if LinkRef(e, i) in rfs then Some(c) else Container(s, e)[i].context)
  }

  /** Gives the link `rf` refers to the context `c`. */
  function DeliverOne(s: ScanState, rf: LinkRef, c: LinkContext): (r: ScanState)
    ensures DeliveredTo(s, r, [rf], c)
  {
    var links := Container(s, rf.element);
    if rf.index < |links| then WithContainer(s, rf.element, links[rf.index := SetContext(links[rf.index], c)])
    else s
  }

  lemma DeliveredCompose(s: ScanState, s1: ScanState, r: ScanState, rf: LinkRef, rfs: seq<LinkRef>, c: LinkContext)
    requires DeliveredTo(s, s1, [rf], c) && DeliveredTo(s1, r, rfs, c)
    ensures DeliveredTo(s, r, [rf] + rfs, c)
  {
    forall e, i | 0 <= i < |Container(s, e)|
      ensures LinkRef(e, i) in [rf] + rfs <==> LinkRef(e, i) == rf || LinkRef(e, i) in rfs
    {
    }
  }

  function Deliver(s: ScanState, rfs: seq<LinkRef>, c: LinkContext): ScanState
    decreases |rfs|
  {
    if |rfs| == 0 then s else Deliver(DeliverOne(s, rfs[0], c), rfs[1..], c)
  }

  /** The part of `extract_events(i, layer, staff, measure)` before the events:
      @n of the measure is mandatory, the staff must have a definition, and the
      links waiting for this measure, staff and layer get this layer and the
      staff's meter as their context; the entry is then cleared. */
  function VisitLayer(measure: Node, staffEl: Node, layer: Node, s: ScanState): (r: Res<ScanState>)
  {
    var measureN :- if Truthy(Attr(measure, "n")) then Ok(Attr(measure, "n").value) else Err(MissingAttribute("n"));
    var loc := Location(OrOne(Attr(staffEl, "n")), OrOne(Attr(layer, "n")));
    var def :- StaffDefOf(s.staves, loc.staff);
    var key := LocationKey(measureN, loc);
    if key in s.pending then
      var c := LinkContext([layer], MeterOf(Attr(def, "meter.count"), Attr(def, "meter.unit")));
      Ok(Deliver(s, s.pending[key], c).(pending := s.pending - {key}))
    else Ok(s)
  }

  // ---------------------------------------------------------------------
  // Properties

  /** Delivering keeps every list's length and every link's references and
      parameters; exactly the referenced links get the context. */
  lemma {:induction false} DeliverSetsContext(s: ScanState, rfs: seq<LinkRef>, c: LinkContext)
    ensures DeliveredTo(s, Deliver(s, rfs, c), rfs, c)
    decreases |rfs|
  {
    if |rfs| > 0 {
      var s1 := DeliverOne(s, rfs[0], c);
      DeliverSetsContext(s1, rfs[1..], c);
      DeliveredCompose(s, s1, Deliver(s1, rfs[1..], c), rfs[0], rfs[1..], c);
      assert [rfs[0]] + rfs[1..] == rfs;
    }
  }

  /** Delivering keeps the table consistent. */
  lemma DeliverValid(s: ScanState, rfs: seq<LinkRef>, c: LinkContext)
    requires Valid(s)
    ensures Valid(Deliver(s, rfs, c))
  {
    DeliverSetsContext(s, rfs, c);
  }

  /** Visiting a layer with waiting links gives each of them the context of
      that layer and meter, removes exactly that entry, and changes nothing
      else; without waiting links it changes nothing. */
  lemma VisitLayerDrains(measure: Node, staffEl: Node, layer: Node, s: ScanState)
    requires VisitLayer(measure, staffEl, layer, s).Ok?
    ensures var r := VisitLayer(measure, staffEl, layer, s).value;
      var loc := Location(OrOne(Attr(staffEl, "n")), OrOne(Attr(layer, "n")));
      var key := LocationKey(Attr(measure, "n").value, loc);
      var def := StaffDefOf(s.staves, loc.staff).value;
      var c := LinkContext([layer], MeterOf(Attr(def, "meter.count"), Attr(def, "meter.unit")));
      && (key !in s.pending ==> r == s)
      && (key in s.pending ==>
            && r.pending == s.pending - {key}
            && r.staves == s.staves && r.chains.used == s.chains.used
            && (forall e :: |Container(r, e)| == |Container(s, e)|)
            && (forall e, i :: 0 <= i < |Container(s, e)| ==>
                  var l, l' := Container(s, e)[i], Container(r, e)[i];
                  && l'.first == l.first && l'.last == l.last && l'.params == l.params
                  && l'.context == if LinkRef(e, i) in s.pending[key] then Some(c) else l.context))
  {
    var loc := Location(OrOne(Attr(staffEl, "n")), OrOne(Attr(layer, "n")));
    var key := LocationKey(Attr(measure, "n").value, loc);
    if key in s.pending {
      var def := StaffDefOf(s.staves, loc.staff).value;
      var c := LinkContext([layer], MeterOf(Attr(def, "meter.count"), Attr(def, "meter.unit")));
      DeliverSetsContext(s, s.pending[key], c);
    }
  }

  /** A measure without @n, or a staff without a definition, stops the scan. */
  lemma VisitLayerErrors(measure: Node, staffEl: Node, layer: Node, s: ScanState)
    ensures !Truthy(Attr(measure, "n")) ==> VisitLayer(measure, staffEl, layer, s) == Err(MissingAttribute("n"))
    ensures Truthy(Attr(measure, "n")) && StaffDefOf(s.staves, OrOne(Attr(staffEl, "n"))).Err? ==>
      VisitLayer(measure, staffEl, layer, s).Err?
  {
  }

  /** Visiting a layer keeps the table consistent. */
  lemma VisitLayerValid(measure: Node, staffEl: Node, layer: Node, s: ScanState)
    requires Valid(s) && VisitLayer(measure, staffEl, layer, s).Ok?
    ensures Valid(VisitLayer(measure, staffEl, layer, s).value)
  {
    var loc := Location(OrOne(Attr(staffEl, "n")), OrOne(Attr(layer, "n")));
    var key := LocationKey(Attr(measure, "n").value, loc);
    if key in s.pending {
      var def := StaffDefOf(s.staves, loc.staff).value;
      var c := LinkContext([layer], MeterOf(Attr(def, "meter.count"), Attr(def, "meter.unit")));
      DeliverSetsContext(s, s.pending[key], c);
    }
  }

  /** The stages of `ExtractLink`, named. */
  lemma ExtractLinkParts(e: Element, lnk: Node, measure: Node, s: ScanState, ids: IdSource)
    returns (l0: EventLink, l1: EventLink, used1: nat, l2: EventLink, used2: nat, key: Option<string>)
    requires ExtractLink(e, lnk, measure, s, ids).Ok?
    ensures NewElementLink(e, lnk) == Ok(l0)
    ensures StartOf(l0, lnk, measure, s.staves, ids, s.chains.used) == Ok((l1, used1))
    ensures !Truthy(l1.last.xmlid)
    ensures EndOf(l1, lnk, measure, s.staves, ids, used1) == Ok((l2, used2, key))
    ensures ExtractLink(e, lnk, measure, s, ids) == Ok(Push(s, e, l2, used2, key))
  {
    l0 := NewElementLink(e, lnk).value;
    var st := StartOf(l0, lnk, measure, s.staves, ids, s.chains.used).value;
    l1, used1 := st.0, st.1;
    var en := EndOf(l1, lnk, measure, s.staves, ids, used1).value;
    l2, used2, key := en.0, en.1, en.2;
  }

  /** A linking element adds exactly one link, at the end of its own list;
      the other lists and the staff table stay, the table only grows (by this
      link, if at all), and stays consistent. */
  lemma ExtractLinkAppends(e: Element, lnk: Node, measure: Node, s: ScanState, ids: IdSource, r: ScanState)
    requires Valid(s) && ExtractLink(e, lnk, measure, s, ids) == Ok(r)
    ensures && Valid(r)
      && |Container(r, e)| == |Container(s, e)| + 1
      && Container(r, e)[..|Container(s, e)|] == Container(s, e)
      && (forall e' :: e' != e ==> Container(r, e') == Container(s, e'))
      && r.staves == s.staves
      && r.chains.used >= s.chains.used
      && r.pending.Keys >= s.pending.Keys
      && (forall k :: k in r.pending ==>
            || (k in s.pending && r.pending[k] == s.pending[k])
            || r.pending[k] == (if k in s.pending then s.pending[k] else []) + [LinkRef(e, |Container(s, e)|)])
  {
    var l0, l1, used1, l2, used2, key := ExtractLinkParts(e, lnk, measure, s, ids);
    PushValid(s, e, l2, used2, key);
  }

  /** The loop over a measure's linking elements of one kind adds one link
      per element, in order, at the end of that kind's list; the other lists
      and the staff table stay, and the table stays consistent. */
  lemma {:induction false} ExtractAllAppends(e: Element, lnks: seq<Node>, measure: Node, s: ScanState, ids: IdSource, r: ScanState)
    requires Valid(s) && ExtractAll(e, lnks, measure, s, ids) == Ok(r)
    ensures && Valid(r)
      && |Container(r, e)| == |Container(s, e)| + |lnks|
      && Container(r, e)[..|Container(s, e)|] == Container(s, e)
      && (forall e' :: e' != e ==> Container(r, e') == Container(s, e'))
      && r.staves == s.staves
      && r.chains.used >= s.chains.used
    decreases |lnks|
  {
    if |lnks| > 0 {
      var s1 := ExtractLink(e, lnks[0], measure, s, ids).value;
      ExtractLinkAppends(e, lnks[0], measure, s, ids, s1);
      ExtractAllAppends(e, lnks[1..], measure, s1, ids, r);
      assert Container(r, e)[..|Container(s, e)|] == Container(r, e)[..|Container(s1, e)|][..|Container(s, e)|];
    }
  }

  /** `extract_linkingElements(measure, name, container)` adds one link per
      element of that name found in the measure. */
  lemma ExtractLinkingElementsAppends(e: Element, measure: Node, s: ScanState, ids: IdSource, r: ScanState)
    requires Valid(s) && ExtractLinkingElements(e, measure, s, ids) == Ok(r)
    ensures && Valid(r)
      && |Container(r, e)| == |Container(s, e)| + |Find(measure, ElementName(e))|
      && Container(r, e)[..|Container(s, e)|] == Container(s, e)
      && (forall e' :: e' != e ==> Container(r, e') == Container(s, e'))
      && r.staves == s.staves
  {
    ExtractAllAppends(e, Find(measure, ElementName(e)), measure, s, ids, r);
  }

  /** The per-measure step of `process_section_child`: every kind of linking
      element gains one link per element of its name in the measure, at the
      end of its list, and the staff table stays. */
  lemma MeasureLinkingElementsAppends(measure: Node, s: ScanState, ids: IdSource, r: ScanState)
    requires Valid(s) && MeasureLinkingElements(measure, s, ids) == Ok(r)
    ensures Valid(r) && r.staves == s.staves
    ensures forall e :: |Container(r, e)| == |Container(s, e)| + |Find(measure, ElementName(e))|
    ensures forall e :: Container(r, e)[..|Container(s, e)|] == Container(s, e)
  {
    var s1 := ExtractLinkingElements(TieElement, measure, s, ids).value;
    ExtractLinkingElementsAppends(TieElement, measure, s, ids, s1);
    var s2 := ExtractLinkingElements(SlurElement, measure, s1, ids).value;
    ExtractLinkingElementsAppends(SlurElement, measure, s1, ids, s2);
    ExtractLinkingElementsAppends(HairpinElement, measure, s2, ids, r);
    forall e
      ensures |Container(r, e)| == |Container(s, e)| + |Find(measure, ElementName(e))|
      ensures Container(r, e)[..|Container(s, e)|] == Container(s, e)
    {
      match e
      case TieElement =>
      case SlurElement =>
      case HairpinElement =>
    }
  }

  /** @endid takes precedence over @tstamp2: the new link ends at it, and
      nothing is filed. */
  lemma EndIdFirst(e: Element, lnk: Node, measure: Node, s: ScanState, ids: IdSource, r: ScanState)
    requires Truthy(Attr(lnk, "endid"))
    requires ExtractLink(e, lnk, measure, s, ids) == Ok(r)
    ensures var l := Container(r, e)[|Container(s, e)|];
      && |Container(r, e)| == |Container(s, e)| + 1
      && l.last == NewReference(Attr(lnk, "endid"))
      && r.pending == s.pending
  {
    var l0, l1, used1, l2, used2, key := ExtractLinkParts(e, lnk, measure, s, ids);
  }

  /** @startid takes precedence over @tstamp. */
  lemma StartIdFirst(e: Element, lnk: Node, measure: Node, s: ScanState, ids: IdSource, r: ScanState)
    requires Truthy(Attr(lnk, "startid"))
    requires ExtractLink(e, lnk, measure, s, ids) == Ok(r)
    ensures Container(r, e)[|Container(s, e)|].first == NewReference(Attr(lnk, "startid"))
  {
    var l0, l1, used1, l2, used2, key := ExtractLinkParts(e, lnk, measure, s, ids);
  }

  /** An end `N` measures ahead (N a positive integer, in a measure with an
      integer number n) stays a timestamp, the beat part, and the link is
      filed under "(n+N):staff:layer", staff and layer defaulting to "1". */
  lemma EndAheadIsFiled(e: Element, lnk: Node, measure: Node, s: ScanState, ids: IdSource, r: ScanState, n: int, ahead: nat)
    requires !Truthy(Attr(lnk, "endid")) && Truthy(Attr(lnk, "tstamp2"))
    requires ahead > 0 && ParseNumber(MeasurePartOf(Attr(lnk, "tstamp2").value)) == Some(ahead as real)
    requires NumberOf(Attr(measure, "n")) == Some(n as real)
    requires ExtractLink(e, lnk, measure, s, ids) == Ok(r)
    ensures var i := |Container(s, e)|;
      var l := Container(r, e)[i];
      var key := LocationKey(IntToString(n + ahead), LinkStaffInfo(lnk));
      && |Container(r, e)| == i + 1
      && l.last == EventReference(None, Some(BeatPartOf(Attr(lnk, "tstamp2").value)), None)
      && l.context.None?
      && r.staves == s.staves
      && key in r.pending && r.pending[key][|r.pending[key]| - 1] == LinkRef(e, i)
      && LinkRef(e, i) in r.pending[key]
  {
    var l0, l1, used1, l2, used2, key := ExtractLinkParts(e, lnk, measure, s, ids);
    EndAhead(l1, lnk, measure, s.staves, ids, used1);
    TargetKeyOfIntegers(Attr(measure, "n"), n, ahead, LinkStaffInfo(lnk));
  }

  /** An end in this measure (no positive measure part) is looked up at once
      in this measure and nothing is filed. */
  lemma EndHereIsResolved(e: Element, lnk: Node, measure: Node, s: ScanState, ids: IdSource, r: ScanState) returns (used: nat)
    requires !Truthy(Attr(lnk, "endid")) && Truthy(Attr(lnk, "tstamp2"))
    requires Ahead(Attr(lnk, "tstamp2").value).None?
    requires ExtractLink(e, lnk, measure, s, ids) == Ok(r)
    ensures var l := Container(r, e)[|Container(s, e)|];
      var beat := BeatPartOf(Attr(lnk, "tstamp2").value);
      && r.pending == s.pending
      && l.last.tstamp.None?
      && used >= s.chains.used
      && LocalTstamp2Id(beat, lnk, measure, s.staves, ids, used) == Ok((l.last.xmlid, r.chains.used))
  {
    var l0, l1, used1, l2, used2, key := ExtractLinkParts(e, lnk, measure, s, ids);
    EndHere(l1, lnk, measure, s.staves, ids, used1);
    used := used1;
  }

  /** A "Nm+b" end is found again: once the link is filed, visiting the layer
      the key names, in the measure numbered n+N, gives the link that layer
      and its staff's meter as context, with the beat still waiting as its
      end timestamp (so `getLastId` resolves it there). */
  lemma ForwardReferenceDelivered(e: Element, lnk: Node, measure: Node, s: ScanState, ids: IdSource, n: int, ahead: nat,
                                  s1: ScanState, target: Node, staffEl: Node, layer: Node, r: ScanState)
    requires !Truthy(Attr(lnk, "endid")) && Truthy(Attr(lnk, "tstamp2"))
    requires ahead > 0 && ParseNumber(MeasurePartOf(Attr(lnk, "tstamp2").value)) == Some(ahead as real)
    requires NumberOf(Attr(measure, "n")) == Some(n as real)
    requires ExtractLink(e, lnk, measure, s, ids) == Ok(s1)
    requires Attr(target, "n") == Some(IntToString(n + ahead))
    requires OrOne(Attr(staffEl, "n")) == LinkStaffInfo(lnk).staff
    requires OrOne(Attr(layer, "n")) == LinkStaffInfo(lnk).layer
    requires VisitLayer(target, staffEl, layer, s1) == Ok(r)
    ensures var i := |Container(s, e)|;
      var def := StaffDefOf(s.staves, LinkStaffInfo(lnk).staff).value;
      && i < |Container(r, e)|
      && Container(r, e)[i].context == Some(LinkContext([layer], MeterOf(Attr(def, "meter.count"), Attr(def, "meter.unit"))))
      && Container(r, e)[i].last == EventReference(None, Some(BeatPartOf(Attr(lnk, "tstamp2").value)), None)
  {
    EndAheadIsFiled(e, lnk, measure, s, ids, s1, n, ahead);
    FiledLinkDelivered(e, lnk, s, n, ahead, s1, target, staffEl, layer, r);
  }

  /** The second half: a link filed under the key of measure n+N is handed
      the context of the layer visited there. */
  lemma FiledLinkDelivered(e: Element, lnk: Node, s: ScanState, n: int, ahead: nat,
                           s1: ScanState, target: Node, staffEl: Node, layer: Node, r: ScanState)
    requires Truthy(Attr(lnk, "tstamp2"))
    requires var i := |Container(s, e)|;
      var key := LocationKey(IntToString(n + ahead), LinkStaffInfo(lnk));
      && |Container(s1, e)| == i + 1
      && s1.staves == s.staves
      && key in s1.pending && LinkRef(e, i) in s1.pending[key]
    requires Container(s1, e)[|Container(s, e)|].last == EventReference(None, Some(BeatPartOf(Attr(lnk, "tstamp2").value)), None)
    requires Attr(target, "n") == Some(IntToString(n + ahead))
    requires OrOne(Attr(staffEl, "n")) == LinkStaffInfo(lnk).staff
    requires OrOne(Attr(layer, "n")) == LinkStaffInfo(lnk).layer
    requires VisitLayer(target, staffEl, layer, s1) == Ok(r)
    ensures var i := |Container(s, e)|;
      var def := StaffDefOf(s.staves, LinkStaffInfo(lnk).staff).value;
      && i < |Container(r, e)|
      && Container(r, e)[i].context == Some(LinkContext([layer], MeterOf(Attr(def, "meter.count"), Attr(def, "meter.unit"))))
      && Container(r, e)[i].last == EventReference(None, Some(BeatPartOf(Attr(lnk, "tstamp2").value)), None)
  {
    var i := |Container(s, e)|;
    var key := LocationKey(IntToString(n + ahead), LinkStaffInfo(lnk));
    assert LocationKey(Attr(target, "n").value, Location(OrOne(Attr(staffEl, "n")), OrOne(Attr(layer, "n")))) == key;
    WaitingLinkDelivered(target, staffEl, layer, s1, LinkRef(e, i));
  }

  /** A link waiting under the key of the layer being visited gets that
      layer's context and keeps its end. */
  lemma WaitingLinkDelivered(measure: Node, staffEl: Node, layer: Node, s: ScanState, rf: LinkRef)
    requires VisitLayer(measure, staffEl, layer, s).Ok?
    requires var loc := Location(OrOne(Attr(staffEl, "n")), OrOne(Attr(layer, "n")));
      var key := LocationKey(Attr(measure, "n").value, loc);
      key in s.pending && rf in s.pending[key]
    requires rf.index < |Container(s, rf.element)|
    ensures var r := VisitLayer(measure, staffEl, layer, s).value;
      var def := StaffDefOf(s.staves, OrOne(Attr(staffEl, "n"))).value;
      && rf.index < |Container(r, rf.element)|
      && Container(r, rf.element)[rf.index].context == Some(LinkContext([layer], MeterOf(Attr(def, "meter.count"), Attr(def, "meter.unit"))))
      && Container(r, rf.element)[rf.index].last == Container(s, rf.element)[rf.index].last
  {
    VisitLayerDrains(measure, staffEl, layer, s);
  }

  /** A measure number that is not a number files the link under "NaN". */
  lemma TargetKeyNaN(loc: Location)
    ensures TargetKey(Some("x"), 1.0, loc) == Ok(LocationKey("NaN", loc))
  {
    assert ParseNumber("x").None?;
  }
}
