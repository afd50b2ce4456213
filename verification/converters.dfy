/** The converters from MEI attribute values to VexFlow specifications, the
    key comparison used for stem directions, the parts of an MEI `tstamp2`
    value, and the measure count of a system. */
module Converters {
  import opened Wrappers
  import opened Numbers
  import opened Mei

  // ---------------------------------------------------------------------
  // Durations

  /** The MEI durations VexFlow supports, longest first. */
  const MeiDurs: seq<string> := ["1", "2", "4", "8", "16", "32", "64"]
  /** Their VexFlow names, position by position. */
  const VexDurs: seq<string> := ["w", "h", "q", "8", "16", "32", "64"]

  /** `mei_dur2vex_dur(String(mei_dur))`; an undefined @dur is the string
      "undefined", which is not supported either. */
  function MeiDur2VexDur(d: Option<string>): (r: Res<string>)
    ensures r.Ok? <==> d.Some? && d.value in MeiDurs
    ensures r.Ok? ==> r.value in VexDurs
  {
    match d
    case None => Err(UnsupportedValue("undefined"))
    case Some(s) =>
      if s == "1" then Ok("w")
      else if s == "2" then Ok("h")
      else if s == "4" then Ok("q")
      else if s == "8" then Ok("8")
      else if s == "16" then Ok("16")
      else if s == "32" then Ok("32")
      else if s == "64" then Ok("64")
      else Err(UnsupportedValue(s))
  }

  /** The MEI duration a VexFlow duration name stands for. */
  function VexDur2MeiDur(v: string): (r: Option<string>)
    ensures r.Some? <==> v in VexDurs
  {
    if v == "w" then Some("1")
    else if v == "h" then Some("2")
    else if v == "q" then Some("4")
    else if v in ["8", "16", "32", "64"] then Some(v)
    else None
  }

  /** Converting is invertible: reading the VexFlow name back gives the MEI
      value, so different durations never share a name. */
  lemma DurRoundTrip(d: string)
    requires MeiDur2VexDur(Some(d)).Ok?
    ensures VexDur2MeiDur(MeiDur2VexDur(Some(d)).value) == Some(d)
  {
  }

  /** And every VexFlow duration name comes from its MEI value. */
  lemma DurRoundTripBack(v: string)
    requires VexDur2MeiDur(v).Some?
    ensures MeiDur2VexDur(VexDur2MeiDur(v)) == Ok(v)
  {
  }

  /** `mei_note2vex_dur(note)`: `allow_dotted || true` is always true, so a
      single dot always adds "d". */
  function MeiNote2VexDur(note: Node): Res<string>
  {
    var d :- MeiDur2VexDur(Attr(note, "dur"));
    if Attr(note, "dots") == Some("1") then Ok(d + "d") else Ok(d)
  }

  /** The duration name ends in "d" exactly when the note has one dot, and
      without it is the plain duration. */
  lemma NoteDurDotted(note: Node)
    requires MeiNote2VexDur(note).Ok?
    ensures var v := MeiNote2VexDur(note).value;
      && |v| > 0
      && (v[|v| - 1] == 'd' <==> Attr(note, "dots") == Some("1"))
      && MeiDur2VexDur(Attr(note, "dur")) == Ok(if v[|v| - 1] == 'd' then v[..|v| - 1] else v)
  {
    var d := MeiDur2VexDur(Attr(note, "dur")).value;
    assert d in VexDurs;
    if Attr(note, "dots") == Some("1") {
      assert (d + "d")[..|d|] == d;
    }
  }

  // ---------------------------------------------------------------------
  // Accidentals

  const MeiAccids: seq<string> := ["n", "f", "s", "ff", "ss"]
  const VexAccids: seq<string> := ["n", "b", "#", "bb", "##"]

  /** `mei_accid2vex_accid(mei_accid)`. */
  function MeiAccid2VexAccid(a: string): (r: Res<string>)
    ensures r.Ok? <==> a in MeiAccids
    ensures r.Ok? ==> r.value in VexAccids
  {
    if a == "n" then Ok("n")
    else if a == "f" then Ok("b")
    else if a == "s" then Ok("#")
    else if a == "ff" then Ok("bb")
    else if a == "ss" then Ok("##")
    else Err(UnsupportedValue(a))
  }

  function VexAccid2MeiAccid(v: string): (r: Option<string>)
    ensures r.Some? <==> v in VexAccids
  {
    if v == "n" then Some("n")
    else if v == "b" then Some("f")
    else if v == "#" then Some("s")
    else if v == "bb" then Some("ff")
    else if v == "##" then Some("ss")
    else None
  }

  lemma AccidRoundTrip(a: string)
    requires MeiAccid2VexAccid(a).Ok?
    ensures VexAccid2MeiAccid(MeiAccid2VexAccid(a).value) == Some(a)
  {
  }

  lemma AccidRoundTripBack(v: string)
    requires VexAccid2MeiAccid(v).Some?
    ensures MeiAccid2VexAccid(VexAccid2MeiAccid(v).value) == Ok(v)
  {
  }

  // ---------------------------------------------------------------------
  // Key signature

  predicate IsLower(c: char) {
    'a' <= c <= 'z'
  }

  predicate IsUpper(c: char) {
    'A' <= c <= 'Z'
  }

  /** `toUpperCase` on one character, for the ASCII letters. */
  function UpperChar(c: char): (u: char)
    ensures IsLower(c) ==> IsUpper(u)
    ensures !IsLower(c) ==> u == c
  {
    if IsLower(c) then (c as int - 'a' as int + 'A' as int) as char else c
  }

  function LowerChar(c: char): (l: char)
    ensures IsUpper(c) ==> IsLower(l)
  {
    if IsUpper(c) then (c as int - 'A' as int + 'a' as int) as char else c
  }

  function ToUpper(s: string): (u: string)
    ensures |u| == |s| && forall i :: 0 <= i < |s| ==> u[i] == UpperChar(s[i])
  {
    if |s| == 0 then [] else [UpperChar(s[0])] + ToUpper(s[1..])
  }

  /** `mei_staffdef2vex_keyspec(staffdef)`: the upper-cased @key.pname, then
      "#" or "b" for @key.accid "s" or "f" (any other value raises), then "m"
      unless @key.mode is absent or "major"; "C" without @key.pname. */
  function KeySpec(def: Node): (r: Res<string>)
    ensures Attr(def, "key.pname").None? ==> r == Ok("C")
    ensures Attr(def, "key.pname").Some? && Attr(def, "key.accid").Some? && Attr(def, "key.accid").value !in ["s", "f"] ==> r.Err?
  {
    match Attr(def, "key.pname")
    case None => Ok("C")
    case Some(p) =>
      var accid :- match Attr(def, "key.accid")
        case None => Ok("")
        case Some(a) =>
          if a == "s" then Ok("#") else if a == "f" then Ok("b")
          else Err(UnsupportedValue("key.accid must be 's' or 'f'"));
      var mode := match Attr(def, "key.mode")
        case None => ""
        case Some(m) => if m == "major" then "" else "m";
      Ok(ToUpper(p) + accid + mode)
  }

  /** What a key specification says: the tonic letter, its accidental (as the
      MEI value "s" or "f") and whether the key is minor. */
  datatype Key = Key(letter: char, accid: Option<string>, minor: bool)

  /** Reads a VexFlow key specification of a one-letter tonic back. */
  function ReadKeySpec(s: string): Option<Key>
  {
    if |s| == 0 || !IsUpper(s[0]) then None
    else
      var rest := s[1..];
      var (accid, rest') :=
        if |rest| > 0 && rest[0] == '#' then (Some("s"), rest[1..])
        else if |rest| > 0 && rest[0] == 'b' then (Some("f"), rest[1..])
        else (None, rest);
      if rest' == "" then Some(Key(LowerChar(s[0]), accid, false))
      else if rest' == "m" then Some(Key(LowerChar(s[0]), accid, true))
      else None
  }

  /** For a one-letter lower-case @key.pname, the specification can be read
      back: it names that tonic, the @key.accid and whether @key.mode is a
      mode other than major. */
  lemma KeySpecReadBack(def: Node)
    requires Attr(def, "key.pname").Some? && |Attr(def, "key.pname").value| == 1
    requires IsLower(Attr(def, "key.pname").value[0])
    requires KeySpec(def).Ok?
    ensures ReadKeySpec(KeySpec(def).value) == Some(Key(
      Attr(def, "key.pname").value[0],
      Attr(def, "key.accid"),
      Attr(def, "key.mode").Some? && Attr(def, "key.mode").value != "major"))
  {
    var p := Attr(def, "key.pname").value;
    var r := KeySpec(def).value;
    assert ToUpper(p) == [UpperChar(p[0])];
    assert r[0] == UpperChar(p[0]);
    assert LowerChar(UpperChar(p[0])) == p[0];
  }

  // ---------------------------------------------------------------------
  // Clef and time signature

  /** `mei_staffdef2vex_clef(staffdef)`: @clef.shape is mandatory; G on line 2
      (or no line) is treble, F on line 4 (or no line) is bass, C on line 3 is
      alto, C on line 4 is tenor, anything else is not supported. */
  function Clef(def: Node): (r: Res<string>)
    ensures AttrT(def, "clef.shape").None? ==> r == Err(MissingAttribute("clef.shape"))
  {
    match AttrT(def, "clef.shape")
    case None => Err(MissingAttribute("clef.shape"))
    case Some(shape) =>
      var line := Attr(def, "clef.line");
      var noLine := !Truthy(line);
      if shape == "G" && (noLine || line == Some("2")) then Ok("treble")
      else if shape == "F" && (noLine || line == Some("4")) then Ok("bass")
      else if shape == "C" && line == Some("3") then Ok("alto")
      else if shape == "C" && line == Some("4") then Ok("tenor")
      else Err(UnsupportedValue("clef"))
  }

  /** The clef each name stands for, as (shape, line). */
  function ClefLine(name: string): Option<(string, string)>
  {
    if name == "treble" then Some(("G", "2"))
    else if name == "bass" then Some(("F", "4"))
    else if name == "alto" then Some(("C", "3"))
    else if name == "tenor" then Some(("C", "4"))
    else None
  }

  /** A clef is recognised exactly when its shape and line (with the default
      line for G and F) are those of one of the four names, and then it is
      that name. */
  lemma ClefIff(def: Node, name: string)
    requires ClefLine(name).Some?
    ensures var (shape, line) := ClefLine(name).value;
      var defaultLine := shape == "G" || shape == "F";
      Clef(def) == Ok(name) <==>
        && Attr(def, "clef.shape") == Some(shape)
        && (Attr(def, "clef.line") == Some(line) || (defaultLine && !Truthy(Attr(def, "clef.line"))))
  {
  }

  /** Only the four names come out. */
  lemma ClefNames(def: Node)
    requires Clef(def).Ok?
    ensures ClefLine(Clef(def).value).Some?
  {
  }

  /** `mei_staffdef2vex_timespec(staffdef)`: "count/unit", or undefined when
      either is missing. */
  function TimeSpec(def: Node): (r: Option<string>)
    ensures r.Some? <==> Attr(def, "meter.count").Some? && Attr(def, "meter.unit").Some?
  {
    match (Attr(def, "meter.count"), Attr(def, "meter.unit"))
    case (Some(c), Some(u)) => Some(c + "/" + u)
    case _ => None
  }

  /** The count is what comes before the first "/", the unit what comes after,
      when the count has no "/" of its own. */
  lemma TimeSpecSplits(def: Node)
    requires TimeSpec(def).Some?
    requires '/' !in Attr(def, "meter.count").value
    ensures var s := TimeSpec(def).value;
      var k := IndexOf(s, '/');
      && k == |Attr(def, "meter.count").value|
      && s[..k] == Attr(def, "meter.count").value
      && s[k + 1..] == Attr(def, "meter.unit").value
  {
    var c := Attr(def, "meter.count").value;
    var s := TimeSpec(def).value;
    assert s[|c|] == '/';
    assert forall j :: 0 <= j < |c| ==> s[j] == c[j];
    assert s[..|c|] == c;
  }

  // ---------------------------------------------------------------------
  // vex_key_cmp

  /** The part of `s` before the first `c` and the part after it, as
      `s.split(c)[0]` and `s.split(c)[1]` (undefined when there is no `c`). */
  function Before(s: string, c: char): string
  {
    var i := IndexOf(s, c);
    if i < 0 then s else s[..i]
  }

  function After(s: string, c: char): Option<string>
  {
    var i := IndexOf(s, c);
    if i < 0 then None else Some(Before(s[i + 1..], c))
  }

  /** A VexFlow key such as "c#/4": the first letter and the octave; `None`
      for a missing letter or a NaN octave. */
  datatype VexKey = VexKey(pitch: Option<char>, octave: Option<real>)

  function ReadVexKey(key: string): VexKey
  {
    var name := Before(key, '/');
    VexKey(if |name| > 0 then Some(name[0]) else None, NumberOf(After(key, '/')))
  }

  /** The comparison of `vex_key_cmp` on read keys: octave first, then pitch
      letter (by character code). A NaN octave, or a missing letter compared
      with a present one, gives undefined (`None`). */
  function CompareKeys(k1: VexKey, k2: VexKey): (r: Option<int>)
    ensures r.Some? ==> -1 <= r.value <= 1
  {
    if k1.octave.None? || k2.octave.None? then None
    else if k1.octave.value == k2.octave.value then
      if k1.pitch == k2.pitch then Some(0)
      else if k1.pitch.None? || k2.pitch.None? then None
      else if k1.pitch.value < k2.pitch.value then Some(-1)
      else Some(1)
    else if k1.octave.value < k2.octave.value then Some(-1)
    else Some(1)
  }

  /** `vex_key_cmp(key1, key2)`. */
  function VexKeyCmp(key1: string, key2: string): (r: Option<int>)
    ensures r.Some? ==> r.value in {-1, 0, 1}
  {
    CompareKeys(ReadVexKey(key1), ReadVexKey(key2))
  }

  /** Lexicographic order on (octave, pitch letter): the independent
      definition the comparison follows. */
  predicate KeyBefore(k1: VexKey, k2: VexKey)
    requires k1.octave.Some? && k2.octave.Some? && k1.pitch.Some? && k2.pitch.Some?
  {
    k1.octave.value < k2.octave.value ||
    (k1.octave.value == k2.octave.value && k1.pitch.value < k2.pitch.value)
  }

  /** On keys with a letter and a numeric octave the comparison is the sign of
      the lexicographic order, and it is antisymmetric. */
  lemma VexKeyCmpOrder(key1: string, key2: string)
    requires var k1 := ReadVexKey(key1); var k2 := ReadVexKey(key2);
      k1.octave.Some? && k2.octave.Some? && k1.pitch.Some? && k2.pitch.Some?
    ensures var k1 := ReadVexKey(key1); var k2 := ReadVexKey(key2);
      && VexKeyCmp(key1, key2).Some?
      && (VexKeyCmp(key1, key2) == Some(-1) <==> KeyBefore(k1, k2))
      && (VexKeyCmp(key1, key2) == Some(1) <==> KeyBefore(k2, k1))
      && (VexKeyCmp(key1, key2) == Some(0) <==> k1 == k2)
      && VexKeyCmp(key2, key1) == Some(-VexKeyCmp(key1, key2).value)
  {
  }

  /** "a/5" is before "c/5", which is before "c/6"; a key without an octave
      compares as undefined. */
  lemma VexKeyCmpExamples()
    ensures VexKeyCmp("a/5", "c/5") == Some(-1)
    ensures VexKeyCmp("c/5", "a/5") == Some(1)
    ensures VexKeyCmp("c/5", "c/6") == Some(-1)
    ensures VexKeyCmp("c", "c/4").None?
  {
    assert IndexOf("a/5", '/') == 1 && "a/5"[..1] == "a" && "a/5"[2..] == "5";
    assert IndexOf("c/5", '/') == 1 && "c/5"[..1] == "c" && "c/5"[2..] == "5";
    assert IndexOf("c/6", '/') == 1 && "c/6"[..1] == "c" && "c/6"[2..] == "6";
    assert IndexOf("5", '/') == -1 && IndexOf("6", '/') == -1;
    ParseOneChar('5');
    ParseOneChar('6');
    assert IndexOf("c", '/') == -1;
  }

  // ---------------------------------------------------------------------
  // tstamp2 parts

  /** `measure_partOf(tstamp2)`: the text before the first "m"; with no "m",
      `substring(0, -1)` is the empty string. */
  function MeasurePartOf(s: string): (r: string)
    ensures IndexOf(s, 'm') >= 0 ==> r == s[..IndexOf(s, 'm')]
    ensures IndexOf(s, 'm') < 0 ==> r == ""
  {
    var i := IndexOf(s, 'm');
    if i < 0 then "" else s[..i]
  }

  /** `beat_partOf(tstamp2)`: the text after the first "+", or all of it when
      there is no "+". */
  function BeatPartOf(s: string): (r: string)
    ensures IndexOf(s, '+') >= 0 ==> r == s[IndexOf(s, '+') + 1..]
    ensures IndexOf(s, '+') < 0 ==> r == s
  {
    s[IndexOf(s, '+') + 1..]
  }

  /** A measure-beat timestamp as `id2tstamp` writes it: the measure count, "m+",
      and the beat. */
  function MeasureBeatString(measures: nat, beat: string): string
  {
    NatToString(measures) + "m+" + beat
  }

  /** Both parts are recovered from a measure-beat timestamp, and the measure
      part reads as the number of measures. */
  lemma MeasureBeatParts(measures: nat, beat: string)
    ensures MeasurePartOf(MeasureBeatString(measures, beat)) == NatToString(measures)
    ensures BeatPartOf(MeasureBeatString(measures, beat)) == beat
    ensures ParseNumber(MeasurePartOf(MeasureBeatString(measures, beat))) == Some(measures as real)
  {
    var n := NatToString(measures);
    var s := MeasureBeatString(measures, beat);
    NatToStringIsNumeral(measures);
    assert forall j :: 0 <= j < |n| ==> s[j] == n[j] && s[j] != 'm' && s[j] != '+';
    assert s[|n|] == 'm' && s[|n| + 1] == '+';
    assert IndexOf(s, 'm') == |n|;
    assert IndexOf(s, '+') == |n| + 1;
    assert s[..|n|] == n;
    assert s[|n| + 2..] == beat;
    ParseNatToString(measures);
  }

  /** A bare beat has no measure part, so it is read as zero measures ahead. */
  lemma BareBeat(beat: string)
    requires 'm' !in beat && '+' !in beat
    ensures MeasurePartOf(beat) == "" && ParseNumber(MeasurePartOf(beat)) == Some(0.0)
    ensures BeatPartOf(beat) == beat
  {
  }

  // ---------------------------------------------------------------------
  // count_measures_siblings_till_sb

  /** `count_measures_siblings_till_sb(element)` over the element and its
      following siblings: measures are counted up to the first system break. */
  function CountMeasuresTillSb(siblings: seq<Node>): (r: nat)
    ensures r <= |siblings|
  {
    if |siblings| == 0 then 0
    else if siblings[0].tag == "measure" then 1 + CountMeasuresTillSb(siblings[1..])
    else if siblings[0].tag == "sb" then 0
    else CountMeasuresTillSb(siblings[1..])
  }

  /** The position of the first system break, or the length. */
  function FirstSb(siblings: seq<Node>): (k: nat)
    ensures k <= |siblings|
    ensures k < |siblings| ==> siblings[k].tag == "sb"
    ensures forall j :: 0 <= j < k ==> siblings[j].tag != "sb"
  {
    if |siblings| == 0 then 0
    else if siblings[0].tag == "sb" then 0
    else 1 + FirstSb(siblings[1..])
  }

  /** The count is the number of measures before the first system break. */
  lemma {:induction false} CountIsMeasuresBeforeSb(siblings: seq<Node>)
    ensures CountMeasuresTillSb(siblings) == |WithTag(siblings[..FirstSb(siblings)], "measure")|
  {
    if |siblings| > 0 && siblings[0].tag != "sb" {
      CountIsMeasuresBeforeSb(siblings[1..]);
      var k := FirstSb(siblings);
      assert siblings[..k][1..] == siblings[1..][..k - 1];
      assert siblings[..k][0] == siblings[0];
    }
  }
}
