/** MeiLib.durationOf, MeiLib.dur2beats and MeiLib.beats2dur: the length of an
    event in beats of a meter, with beats as exact rationals. */
module Durations {
  import opened Wrappers
  import opened Numbers
  import opened Mei

  /** A time signature `{count, unit}` as the source builds it from
      `@meter.count` and `@meter.unit`. */
  datatype Meter = Meter(count: real, unit: real)

  /** Beats taken by a note of duration code `dur` (4 = quarter, 8 = eighth). */
  function Dur2Beats(dur: real, meter: Meter): (beats: real)
    requires dur != 0.0
    ensures beats * dur == meter.unit
  {
    meter.unit / dur
  }

  /** Duration code of a note lasting `beats`. */
  function Beats2Dur(beats: real, meter: Meter): (dur: real)
    requires beats != 0.0
    ensures dur * beats == meter.unit
  {
    meter.unit / beats
  }

  /** Both conversions are `unit / x`, so each undoes the other. */
  lemma Beats2DurInvertsDur2Beats(dur: real, meter: Meter)
    requires dur != 0.0 && meter.unit != 0.0
    ensures Dur2Beats(dur, meter) != 0.0
    ensures Beats2Dur(Dur2Beats(dur, meter), meter) == dur
  {
    var b := Dur2Beats(dur, meter);
    assert b * dur == meter.unit;
    var d := Beats2Dur(b, meter);
    assert d * b == b * dur;
  }

  /** `Number(code)` for a duration code that the source divides by. Where
      that number is NaN or zero the source would go on with NaN or Infinity;
      the model stops instead. */
  function DurationCode(s: string): (r: Res<real>)
    ensures r.Ok? <==> NumberTruthy(ParseNumber(s))
    ensures r.Ok? ==> ParseNumber(s) == Some(r.value) && r.value != 0.0
  {
    match ParseNumber(s)
    case Some(d) => if d != 0.0 then Ok(d) else Err(NotANumber(s))
    case None => Err(NotANumber(s))
  }

  /** The tags `IsSimpleEvent` accepts. */
  predicate IsSimpleEvent(tag: string) {
    tag == "note" || tag == "rest" || tag == "space"
  }

  /** `durationOf_SimpleEvent`: @dur is mandatory. */
  function SimpleEventDuration(n: Node, meter: Meter): Res<real>
  {
    match AttrT(n, "dur")
    case None => Err(MissingAttribute("dur"))
    case Some(s) =>
      var d :- DurationCode(s);
      Ok(Dur2Beats(d, meter))
  }

  /** A chord member counts for layer `layerNo` when its @layer is missing or equal. */
  predicate InLayer(note: Node, layerNo: string) {
    AttrT(note, "layer").None? || AttrT(note, "layer") == Some(layerNo)
  }

  /** The loop over the chord's notes: `dur` is the code agreed so far. The
      first member with a @dur fixes it; any later member whose @dur differs
      from it, or is missing, makes the chord ambiguous. */
  function ChordNotesDur(notes: seq<Node>, layerNo: string, dur: Option<string>): Res<Option<string>>
    decreases |notes|
  {
    if |notes| == 0 then Ok(dur)
    else
      var nt := notes[0];
      if InLayer(nt, layerNo) then
        var durNote := AttrT(nt, "dur");
        if dur.None? && durNote.Some? then ChordNotesDur(notes[1..], layerNo, durNote)
        else if dur.Some? && dur != durNote then Err(AmbiguousDuration)
        else ChordNotesDur(notes[1..], layerNo, dur)
      else ChordNotesDur(notes[1..], layerNo, dur)
  }

  /** `durationOf_Chord` (the layer number is never passed, so it is "1"). */
  function ChordDuration(chord: Node, meter: Meter): Res<real>
  {
    match AttrT(chord, "dur")
    case Some(s) =>
      var d :- DurationCode(s);
      Ok(Dur2Beats(d, meter))
    case None =>
      var agreed :- ChordNotesDur(Find(chord, "note"), "1", None);
      match agreed
      case None => Err(MissingAttribute("dur"))
      case Some(s) =>
        var d :- DurationCode(s);
        Ok(Dur2Beats(d, meter))
  }

  /** `durationOf_Beam` as evidently intended: the sum over the beam's
      children, each of which must be a simple event or a chord. */
  function BeamDuration(children: seq<Node>, meter: Meter): Res<real>
    decreases |children|
  {
    if |children| == 0 then Ok(0.0)
    else
      var c := children[0];
      var d :- if IsSimpleEvent(c.tag) then SimpleEventDuration(c, meter)
               else if c.tag == "chord" then ChordDuration(c, meter)
               else Err(UnsupportedElement(c.tag));
      var rest :- BeamDuration(children[1..], meter);
      Ok(d + rest)
  }

  /** `durationOf_Beam` as written: inside the loop over the children `this`
      is a bare element, which has no `prop` method, so the first child raises
      a TypeError and only a beam without children gets through, with 0 beats.
      That holds only where the beam comes as a jQuery object: a bare element
      has no `children` method either, so even an empty beam raises.
      `tstamp2id` (line 181) passes bare elements, but the event enumerator
      descends into beams and never hands it one. (Were it to get further, `durationOf_SimpleEvent` would read @dur of the
      beam instead of the child's.) */
  function BeamDurationAsWritten(children: seq<Node>): (r: Res<real>)
    ensures r.Ok? <==> |children| == 0
    ensures r.Ok? ==> r.value == 0.0
  {
    if |children| == 0 then Ok(0.0) else Err(TypeError("this.prop is not a function"))
  }

  /** `MeiLib.durationOf(evnt, meter)`. */
  function DurationOf(n: Node, meter: Meter): (r: Res<real>)
    ensures r.Ok? ==> IsSimpleEvent(n.tag) || n.tag == "mRest" || n.tag == "chord" || n.tag == "beam"
    ensures n.tag == "mRest" ==> r == Ok(meter.count)
  {
    if IsSimpleEvent(n.tag) then SimpleEventDuration(n, meter)
    else if n.tag == "mRest" then Ok(meter.count)
    else if n.tag == "chord" then ChordDuration(n, meter)
    else if n.tag == "beam" then BeamDuration(n.children, meter)
    else Err(UnsupportedElement(n.tag))
  }

  /** A note, rest or space lasts `unit / @dur` beats; without @dur it raises. */
  lemma SimpleEventBeats(n: Node, meter: Meter)
    requires IsSimpleEvent(n.tag)
    ensures AttrT(n, "dur").None? ==> DurationOf(n, meter) == Err(MissingAttribute("dur"))
    ensures AttrT(n, "dur").Some? && NumberTruthy(ParseNumber(AttrT(n, "dur").value)) ==>
      DurationOf(n, meter).Ok? && DurationOf(n, meter).value * ParseNumber(AttrT(n, "dur").value).value == meter.unit
  {
  }

  /** A chord's own @dur decides its length whatever notes it holds. */
  lemma ChordOwnDurIgnoresNotes(chord: Node, notes: seq<Node>, meter: Meter)
    requires chord.tag == "chord" && AttrT(chord, "dur").Some?
    ensures DurationOf(chord.(children := notes), meter) == DurationOf(chord, meter)
  {
    assert AttrT(chord.(children := notes), "dur") == AttrT(chord, "dur");
  }

  /** The first member (of the layer) with a @dur at position `k`. */
  predicate IsFirstDated(notes: seq<Node>, layerNo: string, k: int) {
    && 0 <= k < |notes|
    && InLayer(notes[k], layerNo)
    && AttrT(notes[k], "dur").Some?
    && forall j :: 0 <= j < k && InLayer(notes[j], layerNo) ==> AttrT(notes[j], "dur").None?
  }

  /** Every member after position `k` repeats the @dur of member `k`. */
  predicate AgreeAfter(notes: seq<Node>, layerNo: string, k: int)
    requires 0 <= k < |notes|
  {
    forall j :: k < j < |notes| && InLayer(notes[j], layerNo) ==> AttrT(notes[j], "dur") == AttrT(notes[k], "dur")
  }

  lemma {:induction false} ChordNotesDurFixed(notes: seq<Node>, layerNo: string, s: string)
    ensures ChordNotesDur(notes, layerNo, Some(s)) ==
      if forall j :: 0 <= j < |notes| && InLayer(notes[j], layerNo) ==> AttrT(notes[j], "dur") == Some(s)
      then Ok(Some(s)) else Err(AmbiguousDuration)
    decreases |notes|
  {
    if |notes| > 0 {
      ChordNotesDurFixed(notes[1..], layerNo, s);
      assert forall j :: 1 <= j < |notes| ==> notes[j] == notes[1..][j - 1];
    }
  }

  /** The members of the chord for the layer must agree on @dur: with no @dur
      among them the result is "none"; otherwise the first member's @dur is
      the chord's if every later member repeats it, and the chord is
      ambiguous if one differs or lacks it. */
  lemma {:induction false} ChordMembersAgree(notes: seq<Node>, layerNo: string)
    ensures (forall j :: 0 <= j < |notes| && InLayer(notes[j], layerNo) ==> AttrT(notes[j], "dur").None?)
      ==> ChordNotesDur(notes, layerNo, None) == Ok(None)
    ensures forall k :: IsFirstDated(notes, layerNo, k) ==>
      ChordNotesDur(notes, layerNo, None) ==
        if AgreeAfter(notes, layerNo, k) then Ok(AttrT(notes[k], "dur")) else Err(AmbiguousDuration)
    decreases |notes|
  {
    if |notes| > 0 {
      ChordMembersAgree(notes[1..], layerNo);
      assert forall j :: 1 <= j < |notes| ==> notes[j] == notes[1..][j - 1];
      var nt := notes[0];
      if InLayer(nt, layerNo) && AttrT(nt, "dur").Some? {
        ChordNotesDurFixed(notes[1..], layerNo, AttrT(nt, "dur").value);
        forall k | IsFirstDated(notes, layerNo, k)
          ensures k == 0
        {
        }
      } else {
        forall k | IsFirstDated(notes, layerNo, k)
          ensures k > 0 && IsFirstDated(notes[1..], layerNo, k - 1)
        {
        }
      }
    }
  }

  /** A chord with its own @dur needs no @dur on its notes; a chord whose
      notes say 4 and 8 is ambiguous. */
  lemma ChordScenarios()
    ensures DurationOf(Node("chord", map["dur" := "4"],
                            [Node("note", map["pname" := "c", "oct" := "4"], []),
                             Node("note", map["pname" := "e", "oct" := "4"], [])]),
                       Meter(4.0, 4.0)) == Ok(1.0)
    ensures DurationOf(Node("chord", map[],
                            [Node("note", map["dur" := "4"], []),
                             Node("note", map["dur" := "8"], [])]),
                       Meter(4.0, 4.0)) == Err(AmbiguousDuration)
  {
    var c4 := Node("note", map["dur" := "4"], []);
    var e8 := Node("note", map["dur" := "8"], []);
    var chord := Node("chord", map[], [c4, e8]);
    assert ParseNumber("4") == Some(4.0) by { ParseOneChar('4'); }
    assert Descendants(c4) == [] && Descendants(e8) == [];
    assert [c4, e8][1..] == [e8];
    assert DescendantsSeq([e8]) == [e8];
    assert Descendants(chord) == [c4, e8];
    assert WithTag([e8], "note") == [e8];
    assert Find(chord, "note") == [c4, e8];
    assert ChordNotesDur([e8], "1", Some("4")) == Err(AmbiguousDuration);
  }

  /** A beam of notes, rests and chords lasts the sum of its children. */
  function SumOfDurations(children: seq<Node>, meter: Meter): Res<real>
    decreases |children|
  {
    if |children| == 0 then Ok(0.0)
    else
      var d :- DurationOf(children[0], meter);
      var rest :- SumOfDurations(children[1..], meter);
      Ok(d + rest)
  }

  lemma {:induction false} BeamIsSumOfChildren(beam: Node, meter: Meter)
    requires beam.tag == "beam"
    requires forall i :: 0 <= i < |beam.children| ==>
      IsSimpleEvent(beam.children[i].tag) || beam.children[i].tag == "chord"
    ensures DurationOf(beam, meter) == SumOfDurations(beam.children, meter)
  {
    BeamSum(beam.children, meter);
  }

  lemma {:induction false} BeamSum(children: seq<Node>, meter: Meter)
    requires forall i :: 0 <= i < |children| ==> IsSimpleEvent(children[i].tag) || children[i].tag == "chord"
    ensures BeamDuration(children, meter) == SumOfDurations(children, meter)
    decreases |children|
  {
    if |children| > 0 {
      BeamSum(children[1..], meter);
    }
  }

  /** A beam holding one quarter note in 4/4: as written it raises, while the
      sum over its children is one beat. */
  lemma BeamAsWrittenRaises()
    ensures var q := Node("note", map["dur" := "4"], []);
      && BeamDurationAsWritten([q]).Err?
      && DurationOf(Node("beam", map[], [q]), Meter(4.0, 4.0)) == Ok(1.0)
  {
    var q := Node("note", map["dur" := "4"], []);
    ParseOneChar('4');
    assert AttrT(q, "dur") == Some("4");
    assert [q][1..] == [];
  }
}
