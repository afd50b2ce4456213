/** MEI2VF.StaffInfo and the staff-definition bookkeeping of the converter:
    for every staff number the current `<staffDef>` and which modifiers
    (clef, key signature, time signature) the next stave of that staff must
    show. */
module Staves {
  import opened Wrappers
  import opened Numbers
  import opened Mei
  import opened Converters

  /** `renderWith`: whether the next stave shows a clef, key and time signature. */
  datatype RenderFlags = RenderFlags(clef: bool, keysig: bool, timesig: bool)

  const AllFlags := RenderFlags(true, true, true)
  const NoFlags := RenderFlags(false, false, false)

  datatype StaffInfo = StaffInfo(def: Node, renderWith: RenderFlags)

  /** The attributes each modifier depends on. */
  const ClefAttrs: seq<string> := ["clef.shape", "clef.line"]
  const KeyAttrs: seq<string> := ["key.pname", "key.accid"]
  const MeterAttrs: seq<string> := ["meter.count", "meter.unit"]

  /** Some attribute among `names` differs between the two definitions
      (absent and present count as different). */
  predicate Differs(a: Node, b: Node, names: seq<string>) {
    exists i :: 0 <= i < |names| && Attr(a, names[i]) != Attr(b, names[i])
  }

  /** A two-name list differs exactly when one of its two names does. */
  lemma DiffersPair(a: Node, b: Node, x: string, y: string)
    ensures Differs(a, b, [x, y]) <==> Attr(a, x) != Attr(b, x) || Attr(a, y) != Attr(b, y)
  {
    if Attr(a, x) != Attr(b, x) {
      assert [x, y][0] == x;
    } else if Attr(a, y) != Attr(b, y) {
      assert [x, y][1] == y;
    }
  }

  /** The diff of two staff definitions in `look4changes`. `cmp_attr` is also
      called there without an attribute name; that call is assumed to read the
      same value on both sides and so to report nothing (some jQuery versions
      raise there instead). */
  function Diff(cur: Node, next: Node): (r: RenderFlags)
    ensures r.clef <==> Differs(cur, next, ClefAttrs)
    ensures r.keysig <==> Differs(cur, next, KeyAttrs)
    ensures r.timesig <==> Differs(cur, next, MeterAttrs)
  {
    DiffersPair(cur, next, "clef.shape", "clef.line");
    DiffersPair(cur, next, "key.pname", "key.accid");
    DiffersPair(cur, next, "meter.count", "meter.unit");
    RenderFlags(
      Attr(cur, "clef.shape") != Attr(next, "clef.shape") || Attr(cur, "clef.line") != Attr(next, "clef.line"),
      Attr(cur, "key.pname") != Attr(next, "key.pname") || Attr(cur, "key.accid") != Attr(next, "key.accid"),
      Attr(cur, "meter.count") != Attr(next, "meter.count") || Attr(cur, "meter.unit") != Attr(next, "meter.unit"))
  }

  /** `look4changes(current_staffDef, new_staffDef)` as written: a new
      definition without a current one asks for clef and key signature only
      (the line meant to set `timesig` sets `keysig` a second time); a missing
      new definition asks for nothing; two missing definitions raise. */
  function Look4Changes(cur: Option<Node>, next: Option<Node>): (r: Res<RenderFlags>)
    ensures cur.None? && next.None? <==> r.Err?
    ensures cur.Some? && next.Some? ==> r == Ok(Diff(cur.value, next.value))
  {
    match (cur, next)
    case (None, Some(_)) => Ok(RenderFlags(true, true, false))
    case (Some(_), None) => Ok(NoFlags)
    case (None, None) => Err(InvalidArgument("Cannot compare two undefined staff definitions"))
    case (Some(c), Some(n)) => Ok(Diff(c, n))
  }

  /** `look4changes` as evidently intended: a first definition asks for all
      three modifiers. */
  function Look4ChangesIntended(cur: Option<Node>, next: Option<Node>): (r: Res<RenderFlags>)
    ensures cur.None? && next.None? <==> r.Err?
    ensures cur.Some? && next.Some? ==> r == Ok(Diff(cur.value, next.value))
  {
    match (cur, next)
    case (None, Some(_)) => Ok(AllFlags)
    case (Some(_), None) => Ok(NoFlags)
    case (None, None) => Err(InvalidArgument("Cannot compare two undefined staff definitions"))
    case (Some(c), Some(n)) => Ok(Diff(c, n))
  }

  /** A first definition with a meter does not ask for a time signature as
      written, although it differs from "no definition" in its meter. */
  lemma Look4ChangesDropsTimesig(next: Node)
    ensures Look4Changes(None, Some(next)) == Ok(RenderFlags(true, true, false))
    ensures Look4ChangesIntended(None, Some(next)) == Ok(AllFlags)
    ensures Look4Changes(None, Some(next)) != Look4ChangesIntended(None, Some(next))
  {
  }

  /** The intended version agrees with a fresh `StaffInfo` (all flags true),
      and both versions agree whenever there is a current definition. */
  lemma Look4ChangesIntendedAgrees(cur: Option<Node>, next: Node)
    ensures cur.None? ==> Look4ChangesIntended(cur, Some(next)) == Ok(NewStaffInfo(next).renderWith)
    ensures cur.Some? ==> Look4ChangesIntended(cur, Some(next)) == Look4Changes(cur, Some(next))
  {
  }

  /** An unchanged definition asks for nothing, and the diff is symmetric. */
  lemma DiffProperties(a: Node, b: Node)
    ensures Diff(a, a) == NoFlags
    ensures Diff(a, b) == Diff(b, a)
  {
  }

  /** `new MEI2VF.StaffInfo(staffDef, true, true, true)`. */
  function NewStaffInfo(def: Node): StaffInfo
  {
    StaffInfo(def, AllFlags)
  }

  /** `updateDef(staffdef)`: the flags become the diff against the current
      definition, whatever they were; pending flags are overwritten. */
  function UpdateDef(info: StaffInfo, def: Node): (r: StaffInfo)
    ensures r.def == def
    ensures Look4Changes(Some(info.def), Some(def)) == Ok(r.renderWith)
    ensures Look4ChangesIntended(Some(info.def), Some(def)) == Ok(r.renderWith)
  {
    StaffInfo(def, Diff(info.def, def))
  }

  /** A pending clef request is lost when an identical definition arrives. */
  lemma UpdateDefOverwrites(info: StaffInfo)
    requires info.renderWith.clef
    ensures !UpdateDef(info, info.def).renderWith.clef
  {
    DiffProperties(info.def, info.def);
  }

  // ---------------------------------------------------------------------
  // process_staffDef

  type Staves = map<nat, StaffInfo>

  /** `Number(staffDef.attrs().n)` as an array index. The source accepts any
      number here: a definition with @n="1.5" is filed under the property
      "1.5", and a `<staff n="1.5">` reads it back. MEI staff numbers are
      natural numbers in practice, so the model accepts only those and
      raises otherwise. */
  function StaffKey(def: Node): (r: Res<nat>)
    ensures r.Ok? <==> NumberIndex(NumberOf(Attr(def, "n"))).Some?
    ensures r.Ok? ==> NumberOf(Attr(def, "n")) == Some(r.value as real)
  {
    match NumberIndex(NumberOf(Attr(def, "n")))
    case None => Err(NotANumber("n"))
    case Some(k) => Ok(k)
  }

  /** `process_staffDef(staffDef)`: a known staff gets `updateDef`, a new one
      a fresh `StaffInfo`; the staff number is returned. */
  function ProcessStaffDef(staves: Staves, def: Node): (r: Res<(Staves, nat)>)
    ensures r.Ok? <==> StaffKey(def).Ok?
    ensures r.Ok? ==>
      var (st, n) := r.value;
      && StaffKey(def) == Ok(n)
      && st.Keys == staves.Keys + {n}
      && st[n].def == def
      && (n !in staves ==> st[n].renderWith == AllFlags)
      && (n in staves ==> st[n].renderWith == Diff(staves[n].def, def))
      && (forall k :: k in staves && k != n ==> st[k] == staves[k])
  {
    var n :- StaffKey(def);
    if n in staves then Ok((staves[n := UpdateDef(staves[n], def)], n))
    else Ok((staves[n := NewStaffInfo(def)], n))
  }

  // ---------------------------------------------------------------------
  // process_staffGrp

  /** `{ first_n, last_n }`: the staves a group spans. */
  datatype Range = Range(first: nat, last: nat)

  /** `new MEI2VF.StaveConnector(symbol, first_n, last_n)`. */
  datatype Connector = Connector(symbol: Option<string>, top: nat, bottom: nat)

  /** The staff definitions read so far and the connectors of the groups. */
  datatype StaffTable = StaffTable(staves: Staves, connectors: map<string, Connector>)

  /** `first_n.toString() + ':' + last_n.toString()`. */
  function ConnectorKey(rg: Range): string
  {
    NatToString(rg.first) + ":" + NatToString(rg.last)
  }

  /** `process_staffGrp(staffGrp)`: its children in order; the range runs from
      the first child's first staff to the last child's last staff. A group
      without children reads `first_n` of an empty result, a TypeError. */
  function ProcessStaffGrp(grp: Node, t: StaffTable): Res<(Range, StaffTable)>
    decreases grp, 1
  {
    var (acc, t') :- ProcessGrpChildren(grp.children, t, None);
    match acc
    case None => Err(InvalidArgument("staffGrp without children"))
    case Some(rg) =>
      Ok((rg, t'.(connectors := t'.connectors[ConnectorKey(rg) := Connector(Attr(grp, "symbol"), rg.first, rg.last)])))
  }

  /** The loop over a group's children; `acc` is the range so far (`None`
      before the first child). */
  function ProcessGrpChildren(ns: seq<Node>, t: StaffTable, acc: Option<Range>): (r: Res<(Option<Range>, StaffTable)>)
    ensures r.Ok? && |ns| > 0 ==> r.value.0.Some?
    ensures r.Ok? && |ns| == 0 ==> r.value.0 == acc
    decreases ns, 0
  {
    if |ns| == 0 then Ok((acc, t))
    else
      var (rg, t1) :- ProcessGrpChild(ns[0], t);
      var acc' := if acc.None? then rg else Range(acc.value.first, rg.last);
      ProcessGrpChildren(ns[1..], t1, Some(acc'))
  }

  /** `process_staffGrp_child(i, child)`. */
  function ProcessGrpChild(n: Node, t: StaffTable): Res<(Range, StaffTable)>
    decreases n, 2
  {
    if n.tag == "staffDef" then
      var (st, k) :- ProcessStaffDef(t.staves, n);
      Ok((Range(k, k), t.(staves := st)))
    else if n.tag == "staffGrp" then ProcessStaffGrp(n, t)
    else Err(UnsupportedElement(n.tag))
  }

  /** The staff definitions of a group, in document order. */
  function DefsOf(n: Node): seq<Node>
    decreases n, 1
  {
    if n.tag == "staffDef" then [n]
    else if n.tag == "staffGrp" then DefsOfSeq(n.children)
    else []
  }

  function DefsOfSeq(ns: seq<Node>): seq<Node>
    decreases ns, 0
  {
    if |ns| == 0 then [] else DefsOf(ns[0]) + DefsOfSeq(ns[1..])
  }

  /** `process_staffDef` over a list of definitions, in order. */
  function ProcessDefs(defs: seq<Node>, staves: Staves): Res<Staves>
  {
    if |defs| == 0 then Ok(staves)
    else
      var (st, _) :- ProcessStaffDef(staves, defs[0]);
      ProcessDefs(defs[1..], st)
  }

  lemma {:induction false} ProcessDefsAppend(a: seq<Node>, b: seq<Node>, staves: Staves)
    ensures ProcessDefs(a + b, staves) ==
      match ProcessDefs(a, staves)
      case Err(e) => Err(e)
      case Ok(st) => ProcessDefs(b, st)
  {
    if |a| > 0 {
      assert (a + b)[0] == a[0];
      assert (a + b)[1..] == a[1..] + b;
      match ProcessStaffDef(staves, a[0])
      case Err(_) =>
      case Ok((st, _)) => ProcessDefsAppend(a[1..], b, st);
    } else {
      assert a + b == b;
    }
  }

  /** A group is processed as its staff definitions in document order: the
      staff table is the same, the group holds at least one definition, and
      the range runs from the first definition's staff to the last one's. */
  lemma {:induction false} StaffGrpIsDefs(grp: Node, t: StaffTable)
    requires ProcessStaffGrp(grp, t).Ok?
    ensures var (rg, t') := ProcessStaffGrp(grp, t).value;
      var defs := DefsOfSeq(grp.children);
      && |defs| > 0
      && ProcessDefs(defs, t.staves) == Ok(t'.staves)
      && StaffKey(defs[0]) == Ok(rg.first)
      && StaffKey(defs[|defs| - 1]) == Ok(rg.last)
    decreases grp, 1
  {
    GrpChildrenAreDefs(grp.children, t, None);
  }

  lemma {:induction false} GrpChildIsDefs(n: Node, t: StaffTable)
    requires ProcessGrpChild(n, t).Ok?
    ensures var (rg, t') := ProcessGrpChild(n, t).value;
      var defs := DefsOf(n);
      && |defs| > 0
      && ProcessDefs(defs, t.staves) == Ok(t'.staves)
      && StaffKey(defs[0]) == Ok(rg.first)
      && StaffKey(defs[|defs| - 1]) == Ok(rg.last)
    decreases n, 2
  {
    if n.tag == "staffDef" {
      var (st, k) := ProcessStaffDef(t.staves, n).value;
      assert DefsOf(n) == [n] && [n][1..] == [];
      assert ProcessDefs([n], t.staves) == ProcessDefs([], st);
    } else {
      StaffGrpIsDefs(n, t);
    }
  }

  lemma {:induction false} GrpChildrenAreDefs(ns: seq<Node>, t: StaffTable, acc: Option<Range>)
    requires ProcessGrpChildren(ns, t, acc).Ok?
    ensures var (acc', t') := ProcessGrpChildren(ns, t, acc).value;
      var defs := DefsOfSeq(ns);
      && ProcessDefs(defs, t.staves) == Ok(t'.staves)
      && (|ns| > 0 ==> |defs| > 0 && acc'.Some? && StaffKey(defs[|defs| - 1]) == Ok(acc'.value.last))
      && (|ns| > 0 && acc.None? ==> StaffKey(defs[0]) == Ok(acc'.value.first))
      && (acc.Some? ==> acc'.Some? && acc'.value.first == acc.value.first)
    decreases ns, 0
  {
    if |ns| > 0 {
      var (rg, t1) := ProcessGrpChild(ns[0], t).value;
      GrpChildIsDefs(ns[0], t);
      var accNext := if acc.None? then rg else Range(acc.value.first, rg.last);
      GrpChildrenAreDefs(ns[1..], t1, Some(accNext));
      var d0 := DefsOf(ns[0]);
      var rest := DefsOfSeq(ns[1..]);
      ProcessDefsAppend(d0, rest, t.staves);
      assert DefsOfSeq(ns) == d0 + rest;
      if |ns| == 1 {
        assert rest == [];
      }
    }
  }

  // ---------------------------------------------------------------------
  // Systems

  /** `new_section`, `system_break` and `system_n`. */
  datatype Layout = Layout(newSection: bool, systemBreak: bool, systemN: int)

  const InitialLayout := Layout(true, false, 0)

  /** `atStartSystem()`. */
  predicate AtStartSystem(l: Layout) {
    l.newSection || l.systemBreak
  }

  /** `process_systemBreak(sb)`. */
  function ProcessSystemBreak(l: Layout): (r: Layout)
    ensures AtStartSystem(r)
    ensures r.systemN == l.systemN && r.newSection == l.newSection
  {
    l.(systemBreak := true)
  }

  /** Sets the given flags of every staff, leaving the definitions alone. */
  function RaiseAll(staves: Staves, timesig: bool): (r: Staves)
    ensures r.Keys == staves.Keys
    ensures forall k :: k in r ==>
      && r[k].def == staves[k].def
      && r[k].renderWith.clef && r[k].renderWith.keysig
      && r[k].renderWith.timesig == (timesig || staves[k].renderWith.timesig)
  {
    map k | k in staves :: staves[k].(renderWith := RenderFlags(true, true, timesig || staves[k].renderWith.timesig))
  }

  /** `startSystem(measure)`, without the geometry: the first system of a
      section asks every staff for all three modifiers, a later one after a
      system break for clef and key signature; both count one more system
      and clear both triggers. */
  function StartSystem(l: Layout, staves: Staves): (r: (Layout, Staves))
    ensures AtStartSystem(l) ==> r.0 == Layout(false, false, l.systemN + 1) && !AtStartSystem(r.0)
    ensures !AtStartSystem(l) ==> r == (l, staves)
    ensures r.1.Keys == staves.Keys
    ensures forall k :: k in staves ==> r.1[k].def == staves[k].def
    ensures AtStartSystem(l) ==> forall k :: k in staves ==>
      r.1[k].renderWith.clef && r.1[k].renderWith.keysig
    ensures forall k :: k in staves ==>
      r.1[k].renderWith.timesig == (l.newSection || staves[k].renderWith.timesig)
  {
    if l.newSection then (Layout(false, false, l.systemN + 1), RaiseAll(staves, true))
    else if l.systemBreak then (Layout(false, false, l.systemN + 1), RaiseAll(staves, false))
    else (l, staves)
  }

  // ---------------------------------------------------------------------
  // initialise_staff_n

  /** What a stave is given besides its lines. */
  datatype Modifier = ClefMod(name: string) | KeySigMod(spec: string) | TimeSigMod(time: Option<string>)

  /** Whether a definition lets the key signature show: @key.sig.show is
      "true" or absent. */
  predicate KeySigShown(def: Node) {
    Attr(def, "key.sig.show") == Some("true") || Attr(def, "key.sig.show").None?
  }

  /** Whether a definition lets the time signature show: @meter.rend is
      "norm" or absent. */
  predicate TimeSigShown(def: Node) {
    Attr(def, "meter.rend") == Some("norm") || Attr(def, "meter.rend").None?
  }

  /** The place of a modifier on a stave: clef, then key, then time. */
  function Rank(m: Modifier): nat {
    match m
    case ClefMod(_) => 0
    case KeySigMod(_) => 1
    case TimeSigMod(_) => 2
  }

  /** The clef a stave gets: one when asked for; an unreadable clef raises. */
  function ClefPart(info: StaffInfo): (r: Res<seq<Modifier>>)
    ensures r.Err? <==> info.renderWith.clef && Clef(info.def).Err?
    ensures r.Ok? ==> |r.value| <= 1 && (|r.value| == 1 <==> info.renderWith.clef)
    ensures r.Ok? ==> forall m :: m in r.value ==> m == ClefMod(Clef(info.def).value)
  {
    if info.renderWith.clef then
      var c :- Clef(info.def); Ok([ClefMod(c)])
    else Ok([])
  }

  /** The key signature a stave gets: one when asked for and not switched
      off; an unreadable key raises only then. */
  function KeyPart(info: StaffInfo): (r: Res<seq<Modifier>>)
    ensures r.Err? <==> info.renderWith.keysig && KeySigShown(info.def) && KeySpec(info.def).Err?
    ensures r.Ok? ==> |r.value| <= 1 && (|r.value| == 1 <==> info.renderWith.keysig && KeySigShown(info.def))
    ensures r.Ok? ==> forall m :: m in r.value ==> m == KeySigMod(KeySpec(info.def).value)
  {
    if info.renderWith.keysig && KeySigShown(info.def) then
      var spec :- KeySpec(info.def); Ok([KeySigMod(spec)])
    else Ok([])
  }

  /** The time signature a stave gets: one when asked for and not switched
      off. */
  function TimePart(info: StaffInfo): (r: seq<Modifier>)
    ensures |r| <= 1 && (|r| == 1 <==> info.renderWith.timesig && TimeSigShown(info.def))
    ensures forall m :: m in r ==> m == TimeSigMod(TimeSpec(info.def))
  {
    if info.renderWith.timesig && TimeSigShown(info.def) then [TimeSigMod(TimeSpec(info.def))] else []
  }

  /** `initialise_staff_n(staff_n, width)` without the drawing: the modifiers
      the stave gets, in order, and the staff table with that staff's flags
      cleared. The key signature is shown unless @key.sig.show says otherwise,
      the time signature unless @meter.rend does. */
  function InitialiseStaff(staves: Staves, n: Option<real>): (r: Res<(seq<Modifier>, Staves)>)
    ensures !NumberTruthy(n) ==> r.Err?
    ensures NumberTruthy(n) && (NumberIndex(n).None? || NumberIndex(n).value !in staves) ==>
      r == Err(MissingStaffDef)
    ensures NumberTruthy(n) && NumberIndex(n).Some? && NumberIndex(n).value in staves ==>
      var info := staves[NumberIndex(n).value];
      (r.Err? <==>
        (info.renderWith.clef && Clef(info.def).Err?) ||
        (info.renderWith.keysig && KeySigShown(info.def) && KeySpec(info.def).Err?))
    ensures r.Ok? ==>
      var k := NumberIndex(n).value;
      var (mods, st) := r.value;
      var info := staves[k];
      && st == staves[k := info.(renderWith := NoFlags)]
      && |mods| <= 3
      && (info.renderWith == NoFlags ==> mods == [])
      && (info.renderWith.clef <==> Clef(info.def).Ok? && ClefMod(Clef(info.def).value) in mods)
      && (forall m :: m in mods && m.KeySigMod? ==> Ok(m.spec) == KeySpec(info.def))
      && (forall m :: m in mods && m.TimeSigMod? ==> m.time == TimeSpec(info.def))
  {
    if !NumberTruthy(n) then Err(InvalidArgument("Cannot render staff without attribute n"))
    else match NumberIndex(n)
    case None => Err(MissingStaffDef)
    case Some(k) =>
      if k !in staves then Err(MissingStaffDef)
      else
        var info := staves[k];
        var clef :- ClefPart(info);
        var key :- KeyPart(info);
        var time := TimePart(info);
        Ok((clef + key + time, staves[k := info.(renderWith := NoFlags)]))
  }

  /** Which modifiers a stave gets: at most one of each, clef before key
      before time; a clef exactly when asked for; a key signature exactly
      when asked for and @key.sig.show allows it; a time signature exactly
      when asked for and @meter.rend allows it. */
  lemma {:induction false} InitialiseStaffShows(staves: Staves, n: Option<real>, mods: seq<Modifier>, st: Staves)
    requires InitialiseStaff(staves, n) == Ok((mods, st))
    ensures var info := staves[NumberIndex(n).value];
      && (forall i, j :: 0 <= i < j < |mods| ==> Rank(mods[i]) < Rank(mods[j]))
      && ((exists m :: m in mods && m.ClefMod?) <==> info.renderWith.clef)
      && ((exists m :: m in mods && m.KeySigMod?) <==> info.renderWith.keysig && KeySigShown(info.def))
      && ((exists m :: m in mods && m.TimeSigMod?) <==> info.renderWith.timesig && TimeSigShown(info.def))
      && (forall m :: m in mods && m.ClefMod? ==> Ok(m.name) == Clef(info.def))
  {
    var info := staves[NumberIndex(n).value];
    var clef, key, time := ClefPart(info).value, KeyPart(info).value, TimePart(info);
    assert mods == clef + key + time;
    PartsPresent(clef, key, time);
    PartsInOrder(clef, key, time);
  }

  /** Three optional parts, one clef, one key and one time signature, make
      a list holding each kind exactly when its part does. */
  lemma PartsPresent(clef: seq<Modifier>, key: seq<Modifier>, time: seq<Modifier>)
    requires |clef| <= 1 && |key| <= 1 && |time| <= 1
    requires forall m :: m in clef ==> m.ClefMod?
    requires forall m :: m in key ==> m.KeySigMod?
    requires forall m :: m in time ==> m.TimeSigMod?
    ensures var mods := clef + key + time;
      && ((exists m :: m in mods && m.ClefMod?) <==> |clef| == 1)
      && ((exists m :: m in mods && m.KeySigMod?) <==> |key| == 1)
      && ((exists m :: m in mods && m.TimeSigMod?) <==> |time| == 1)
      && (forall m :: m in mods && m.ClefMod? ==> m in clef)
  {
    var mods := clef + key + time;
    assert forall m :: m in mods <==> m in clef || m in key || m in time;
    if |clef| == 1 {
      assert clef[0] in mods;
    }
    if |key| == 1 {
      assert key[0] in mods;
    }
    if |time| == 1 {
      assert time[0] in mods;
    }
  }

  /** The same three parts are in stave order: clef, key, time. */
  lemma PartsInOrder(clef: seq<Modifier>, key: seq<Modifier>, time: seq<Modifier>)
    requires |clef| <= 1 && |key| <= 1 && |time| <= 1
    requires forall m :: m in clef ==> m.ClefMod?
    requires forall m :: m in key ==> m.KeySigMod?
    requires forall m :: m in time ==> m.TimeSigMod?
    ensures var mods := clef + key + time;
      forall i, j :: 0 <= i < j < |mods| ==> Rank(mods[i]) < Rank(mods[j])
  {
    var mods := clef + key + time;
    forall i | 0 <= i < |mods|
      ensures Rank(mods[i]) == if i < |clef| then 0 else if i < |clef| + |key| then 1 else 2
    {
      if i < |clef| {
        assert mods[i] == clef[i] && clef[i] in clef;
      } else if i < |clef| + |key| {
        assert mods[i] == key[i - |clef|] && key[i - |clef|] in key;
      } else {
        assert mods[i] == time[i - |clef| - |key|] && time[i - |clef| - |key|] in time;
      }
    }
  }

  /** A modifier is emitted once per request: a staff whose flags were just
      used shows nothing on its next stave until a definition or a new system
      asks again. */
  lemma {:induction false} InitialiseStaffOnce(staves: Staves, n: Option<real>)
    requires InitialiseStaff(staves, n).Ok?
    ensures var st := InitialiseStaff(staves, n).value.1;
      InitialiseStaff(st, n) == Ok(([], st))
  {
    var k := NumberIndex(n).value;
    var st := InitialiseStaff(staves, n).value.1;
    assert k in st && st[k].renderWith == NoFlags;
    assert st[k := st[k].(renderWith := NoFlags)] == st;
  }

  /** A fresh staff shows its clef, its key signature and its time signature,
      in that order, when none of them is switched off. */
  lemma FreshStaffShowsAll(def: Node, k: nat)
    requires k > 0
    requires Clef(def).Ok? && KeySpec(def).Ok?
    requires Attr(def, "key.sig.show").None? && Attr(def, "meter.rend").None?
    ensures var st := map[k := NewStaffInfo(def)];
      InitialiseStaff(st, Some(k as real)) ==
        Ok(([ClefMod(Clef(def).value), KeySigMod(KeySpec(def).value), TimeSigMod(TimeSpec(def))],
            map[k := StaffInfo(def, NoFlags)]))
  {
    var st := map[k := NewStaffInfo(def)];
    assert NumberIndex(Some(k as real)) == Some(k);
    assert st[k := st[k].(renderWith := NoFlags)] == map[k := StaffInfo(def, NoFlags)];
    var c, ks := Clef(def).value, KeySpec(def).value;
    assert [ClefMod(c)] + [KeySigMod(ks)] + [TimeSigMod(TimeSpec(def))] ==
      [ClefMod(c), KeySigMod(ks), TimeSigMod(TimeSpec(def))];
  }
}

