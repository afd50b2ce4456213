/** MEI2VF.EventReference and MEI2VF.EventLink: the two ends of a tie, slur
    or hairpin. A reference holds an xml:id, or a timestamp that is turned into
    an xml:id (with `tstamp2id`) once a layer and meter are known, and then
    remembers that id.

    `createPseudoUUID` is random; the model takes the ids it would return as a
    parameter `ids` and counts how many have been `used`. */
module Links {
  import opened Wrappers
  import opened Numbers
  import opened Mei
  import opened Durations
  import opened Temporal

  /** The ids `createPseudoUUID` hands out, in order. */
  type IdSource = nat -> string

  /** `{ layer, meter }`: where a timestamp is to be looked up. The meter is
      `{ Number(@meter.count), Number(@meter.unit) }`; `None` stands for a meter
      with a NaN part. */
  datatype LinkContext = LinkContext(layer: Selection, meter: Option<Meter>)

  /** `{ count: Number(count), unit: Number(unit) }` read from a staff
      definition. */
  function MeterOf(count: Option<string>, unit: Option<string>): (m: Option<Meter>)
    ensures m.Some? <==> NumberOf(count).Some? && NumberOf(unit).Some?
    ensures m.Some? ==> m.value == Meter(NumberOf(count).value, NumberOf(unit).value)
  {
    match (NumberOf(count), NumberOf(unit))
    case (Some(c), Some(u)) => Some(Meter(c, u))
    case _ => None
  }

  datatype EventReference = EventReference(xmlid: Option<string>, tstamp: Option<string>, context: Option<LinkContext>)

  /** `new MEI2VF.EventReference(xmlid)`. */
  function NewReference(xmlid: Option<string>): EventReference
  {
    EventReference(xmlid, None, None)
  }

  /** `MeiLib.tstamp2id(tstamp, layer, meter)` with the next fresh id, and how
      many ids are used afterwards. A NaN meter stops with `MissingMeter`. */
  function Resolve(tstamp: string, c: LinkContext, ids: IdSource, used: nat): (r: Res<(Option<string>, nat)>)
    ensures c.meter.None? ==> r == Err(MissingMeter)
    ensures r.Ok? ==> r.value.1 == used || (r.value.1 == used + 1 && r.value.0 == Some(ids(used)))
    ensures c.meter.Some? ==> match Tstamp2Id(tstamp, c.layer, c.meter.value, ids(used))
      case Err(e) => r == Err(e)
      case Ok(None) => r == Ok((None, used))
      case Ok(Some(h)) => r.Ok? && r.value.0 == Some(h.id)
  {
    match c.meter
    case None => Err(MissingMeter)
    case Some(m) =>
      var hit :- Tstamp2Id(tstamp, c.layer, m, ids(used));
      match hit
      case None => Ok((None, used))
      case Some(h) => Ok((Some(h.id), if h.generated then used + 1 else used))
  }

  /** `tryResolveReference`: a missing timestamp raises; without a context the
      id is cleared; otherwise it becomes what `tstamp2id` returns. */
  function TryResolve(r: EventReference, ids: IdSource, used: nat): (res: Res<(EventReference, nat)>)
    ensures !Truthy(r.tstamp) ==> res.Err?
    ensures Truthy(r.tstamp) && r.context.None? ==> res == Ok((r.(xmlid := None), used))
    ensures res.Ok? ==> res.value.0.tstamp == r.tstamp && res.value.0.context == r.context
  {
    if !Truthy(r.tstamp) then Err(InvalidArgument("tstamp must be set in order to resolve reference"))
    else
      match r.context
      case None => Ok((r.(xmlid := None), used))
      case Some(c) =>
        var (id, used') :- Resolve(r.tstamp.value, c, ids, used);
        Ok((r.(xmlid := id), used'))
  }

  function SetRefId(r: EventReference, xmlid: Option<string>): EventReference
  {
    r.(xmlid := xmlid)
  }

  /** `setTStamp`: a reference that already has an id re-resolves it at once. */
  function SetTStamp(r: EventReference, tstamp: string, ids: IdSource, used: nat): (res: Res<(EventReference, nat)>)
    ensures !Truthy(r.xmlid) ==> res == Ok((r.(tstamp := Some(tstamp)), used))
    ensures Truthy(r.xmlid) && r.context.None? && tstamp != "" ==>
      res == Ok((EventReference(None, Some(tstamp), None), used))
    ensures Truthy(r.xmlid) && tstamp == "" ==> res.Err?
  {
    var r' := r.(tstamp := Some(tstamp));
    if Truthy(r.xmlid) then TryResolve(r', ids, used) else Ok((r', used))
  }

  /** The context a reference ends up with when `getId` is passed `ctx`. */
  function WithContext(r: EventReference, ctx: Option<LinkContext>): EventReference
  {
    if ctx.Some? then r.(context := ctx) else r
  }

  /** `getId({ meicontext: ctx })`: the stored id if there is one; otherwise the
      timestamp is resolved, and remembered, when there is also a context;
      otherwise null (`None`). */
  function GetId(r: EventReference, ctx: Option<LinkContext>, ids: IdSource, used: nat): (res: Res<(Option<string>, EventReference, nat)>)
    ensures Truthy(r.xmlid) ==> res == Ok((r.xmlid, WithContext(r, ctx), used))
    ensures !Truthy(r.xmlid) && !(Truthy(r.tstamp) && WithContext(r, ctx).context.Some?) ==>
      res == Ok((None, WithContext(r, ctx), used))
    ensures res.Ok? ==>
      && res.value.1.tstamp == r.tstamp
      && res.value.1.context == WithContext(r, ctx).context
      && (Truthy(res.value.0) ==> res.value.1.xmlid == res.value.0)
      && (res.value.2 == used || res.value.2 == used + 1)
  {
    var r1 := WithContext(r, ctx);
    if Truthy(r1.xmlid) then Ok((r1.xmlid, r1, used))
    else if Truthy(r1.tstamp) && r1.context.Some? then
      var (r2, used') :- TryResolve(r1, ids, used);
      Ok((r2.xmlid, r2, used'))
    else Ok((None, r1, used))
  }

  /** Without an id, a timestamp and a context, `getId` answers with exactly
      what `tstamp2id` finds in that context. */
  lemma GetIdResolves(r: EventReference, ctx: Option<LinkContext>, ids: IdSource, used: nat, c: LinkContext, m: Meter)
    requires !Truthy(r.xmlid) && Truthy(r.tstamp)
    requires WithContext(r, ctx).context == Some(c) && c.meter == Some(m)
    ensures match Tstamp2Id(r.tstamp.value, c.layer, m, ids(used))
      case Err(e) => GetId(r, ctx, ids, used) == Err(e)
      case Ok(None) => GetId(r, ctx, ids, used).Ok? && GetId(r, ctx, ids, used).value.0.None?
      case Ok(Some(h)) => GetId(r, ctx, ids, used).Ok? && GetId(r, ctx, ids, used).value.0 == Some(h.id)
  {
  }

  /** Memoisation: once `getId` has returned an id, asking again (with the same
      context) returns the same id, changes nothing and uses no fresh id. */
  lemma GetIdIdempotent(r: EventReference, ctx: Option<LinkContext>, ids: IdSource, used: nat, ids': IdSource, used': nat)
    requires GetId(r, ctx, ids, used).Ok? && Truthy(GetId(r, ctx, ids, used).value.0)
    ensures var (id, r', _) := GetId(r, ctx, ids, used).value;
      GetId(r', ctx, ids', used') == Ok((id, r', used'))
  {
    var (id, r', _) := GetId(r, ctx, ids, used).value;
    assert WithContext(r', ctx) == r';
  }

  // ---------------------------------------------------------------------
  // EventLink

  /** What decides whether a note closes an open tie or slur: pitch name,
      octave and system for ties, nesting level and system for slurs. */
  datatype LinkCond =
    | TieKey(pname: string, oct: string, system: int)
    | SlurKey(level: nat, system: int)

  /** `params`: `{}` for a new link, `{ linkCond }` for a tie or slur started by
      a note's attribute, `{ form, place }` for a hairpin. */
  datatype LinkParams =
    | NoParams
    | Cond(cond: LinkCond)
    | HairpinParams(form: string, place: Option<string>)

  datatype EventLink = EventLink(first: EventReference, last: EventReference, params: LinkParams, context: Option<LinkContext>)

  /** `new MEI2VF.EventLink(first_id, last_id)`. */
  function NewLink(firstId: Option<string>, lastId: Option<string>): EventLink
  {
    EventLink(NewReference(firstId), NewReference(lastId), NoParams, None)
  }

  function SetParams(l: EventLink, p: LinkParams): EventLink
  {
    l.(params := p)
  }

  function SetFirstRef(l: EventLink, r: EventReference): EventLink
  {
    l.(first := r)
  }

  function SetLastRef(l: EventLink, r: EventReference): EventLink
  {
    l.(last := r)
  }

  function SetFirstId(l: EventLink, id: Option<string>): EventLink
  {
    l.(first := SetRefId(l.first, id))
  }

  function SetLastId(l: EventLink, id: Option<string>): EventLink
  {
    l.(last := SetRefId(l.last, id))
  }

  function SetFirstTStamp(l: EventLink, tstamp: string, ids: IdSource, used: nat): Res<(EventLink, nat)>
  {
    var (r, used') :- SetTStamp(l.first, tstamp, ids, used);
    Ok((l.(first := r), used'))
  }

  function SetLastTStamp(l: EventLink, tstamp: string, ids: IdSource, used: nat): Res<(EventLink, nat)>
  {
    var (r, used') :- SetTStamp(l.last, tstamp, ids, used);
    Ok((l.(last := r), used'))
  }

  function SetContext(l: EventLink, c: LinkContext): EventLink
  {
    l.(context := Some(c))
  }

  /** `getFirstId()`: the first reference is asked with the link's context. */
  function GetFirstId(l: EventLink, ids: IdSource, used: nat): (res: Res<(Option<string>, EventLink, nat)>)
    ensures res.Ok? ==> res.value.1.last == l.last && res.value.1.params == l.params && res.value.1.context == l.context
    ensures Truthy(l.first.xmlid) ==> res.Ok? && res.value.0 == l.first.xmlid && res.value.2 == used
  {
    var (id, r, used') :- GetId(l.first, l.context, ids, used);
    Ok((id, l.(first := r), used'))
  }

  /** `getLastId()`: the last reference is asked with the link's context. */
  function GetLastId(l: EventLink, ids: IdSource, used: nat): (res: Res<(Option<string>, EventLink, nat)>)
    ensures res.Ok? ==> res.value.1.first == l.first && res.value.1.params == l.params && res.value.1.context == l.context
    ensures res.Ok? ==> res.value.2 == used || res.value.2 == used + 1
    ensures Truthy(l.last.xmlid) ==> res.Ok? && res.value.0 == l.last.xmlid && res.value.2 == used
    ensures res.Ok? ==> (Truthy(res.value.0) <==> Truthy(res.value.1.last.xmlid))
  {
    var (id, r, used') :- GetId(l.last, l.context, ids, used);
    Ok((id, l.(last := r), used'))
  }

  /** A link none of whose lookups can change it: no context, and no end
      timestamp waiting to be resolved. Every link a note's @tie or @slur
      creates is settled. */
  predicate Settled(l: EventLink) {
    l.context.None? && !Truthy(l.last.tstamp)
  }

  /** An open link: its end is not known. */
  predicate Open(l: EventLink) {
    !Truthy(l.last.xmlid)
  }

  /** On a settled link `getLastId` is a pure read of the stored end id. */
  lemma GetLastIdSettled(l: EventLink, ids: IdSource, used: nat)
    requires Settled(l)
    ensures GetLastId(l, ids, used) == Ok((if Open(l) then None else l.last.xmlid, l, used))
  {
  }

  /** A link with a waiting end timestamp gets its end once it has a context,
      and keeps that end afterwards. */
  lemma GetLastIdAfterContext(l: EventLink, c: LinkContext, m: Meter, ids: IdSource, used: nat)
    requires Open(l) && Truthy(l.last.tstamp) && c.meter == Some(m)
    ensures var l' := SetContext(l, c);
      match Tstamp2Id(l.last.tstamp.value, c.layer, m, ids(used))
      case Err(e) => GetLastId(l', ids, used) == Err(e)
      case Ok(None) => GetLastId(l', ids, used).Ok? && GetLastId(l', ids, used).value.0.None?
      case Ok(Some(h)) => GetLastId(l', ids, used).Ok? && GetLastId(l', ids, used).value.0 == Some(h.id)
  {
    GetIdResolves(l.last, Some(c), ids, used, c, m);
  }

  /** Without a context, on the link or left on the reference by an earlier
      lookup, the link stays unresolved and nothing is looked up. */
  lemma GetLastIdWithoutContext(l: EventLink, ids: IdSource, used: nat)
    requires Open(l) && l.context.None? && l.last.context.None?
    ensures GetLastId(l, ids, used) == Ok((None, l, used))
  {
  }
}
