/** Ties and slurs written as note attributes (`@tie="i"`, `@slur="i1 t2"`):
    a note starting one appends an open link; a note ending one closes the
    first open link, in creation order, with the same key, or appends a link
    that has only its end. */
module TieSlur {
  import opened Wrappers
  import opened Numbers
  import opened Mei
  import opened Links

  // ---------------------------------------------------------------------
  // Splitting an attribute value at spaces

  /** `s.split(' ')`: every space separates two tokens, so consecutive spaces
      give empty tokens and the empty string gives one empty token. */
  function Split(s: string): (toks: seq<string>)
    ensures |toks| > 0
    ensures forall k :: 0 <= k < |toks| ==> ' ' !in toks[k]
    decreases |s|
  {
    var i := IndexOf(s, ' ');
    if i < 0 then [s] else [s[..i]] + Split(s[i + 1..])
  }

  /** `toks.join(' ')`. */
  function Join(toks: seq<string>): string
    requires |toks| > 0
  {
    if |toks| == 1 then toks[0] else toks[0] + " " + Join(toks[1..])
  }

  /** Joining the tokens back gives the attribute value. */
  lemma {:induction false} JoinSplit(s: string)
    ensures Join(Split(s)) == s
    decreases |s|
  {
    var i := IndexOf(s, ' ');
    if i >= 0 {
      JoinSplit(s[i + 1..]);
      assert s == s[..i] + " " + s[i + 1..];
    }
  }

  /** Splitting a join of space-free tokens gives the tokens back. */
  lemma {:induction false} SplitJoin(toks: seq<string>)
    requires |toks| > 0
    requires forall k :: 0 <= k < |toks| ==> ' ' !in toks[k]
    ensures Split(Join(toks)) == toks
    decreases |toks|
  {
    var s := Join(toks);
    if |toks| == 1 {
      assert IndexOf(s, ' ') == -1;
    } else {
      var t := toks[0];
      assert s == t + " " + Join(toks[1..]);
      assert s[|t|] == ' ';
      assert forall j :: 0 <= j < |t| ==> s[j] == t[j] && s[j] != ' ';
      assert IndexOf(s, ' ') == |t|;
      assert s[..|t|] == t;
      assert s[|t| + 1..] == Join(toks[1..]);
      SplitJoin(toks[1..]);
    }
  }

  // ---------------------------------------------------------------------
  // parse_slur_attribute

  /** `{ letter, nesting_level }`. */
  datatype SlurToken = SlurToken(letter: char, level: nat)

  /** One token: one character is level 0; two characters need a second
      character `Number` reads as non-zero, which makes it a digit 1 to 9;
      anything else raises. */
  function ParseToken(t: string): (r: Res<SlurToken>)
    ensures r.Ok? <==> |t| == 1 || (|t| == 2 && NumberTruthy(ParseNumber([t[1]])))
    ensures r.Ok? ==> r.value.letter == t[0]
    ensures r.Ok? && |t| == 1 ==> r.value.level == 0
    ensures r.Ok? && |t| == 2 ==> ParseNumber([t[1]]) == Some(r.value.level as real) && 1 <= r.value.level <= 9
  {
    if |t| == 1 then Ok(SlurToken(t[0], 0))
    else if |t| == 2 then
      ParseOneChar(t[1]);
      if IsDigit(t[1]) && t[1] != '0' then Ok(SlurToken(t[0], DigitValue(t[1])))
      else Err(UnsupportedValue("badly formed slur attribute"))
    else Err(UnsupportedValue("badly formed slur attribute"))
  }

  function ParseTokens(toks: seq<string>): (r: Res<seq<SlurToken>>)
    ensures r.Ok? <==> forall k :: 0 <= k < |toks| ==> ParseToken(toks[k]).Ok?
    ensures r.Ok? ==> |r.value| == |toks| && forall k :: 0 <= k < |toks| ==> ParseToken(toks[k]) == Ok(r.value[k])
  {
    if |toks| == 0 then Ok([])
    else
      var t :- ParseToken(toks[0]);
      var rest :- ParseTokens(toks[1..]);
      Ok([t] + rest)
  }

  /** `parse_slur_attribute(slur_str)`. */
  function ParseSlurAttribute(s: string): Res<seq<SlurToken>>
  {
    ParseTokens(Split(s))
  }

  /** The token as it is written in the attribute. */
  function RenderToken(t: SlurToken): string
    requires t.level <= 9
  {
    if t.level == 0 then [t.letter] else [t.letter, DigitChar(t.level)]
  }

  function RenderTokens(ts: seq<SlurToken>): (r: seq<string>)
    requires forall k :: 0 <= k < |ts| ==> ts[k].level <= 9
    ensures |r| == |ts| && forall k :: 0 <= k < |ts| ==> r[k] == RenderToken(ts[k])
  {
    if |ts| == 0 then [] else [RenderToken(ts[0])] + RenderTokens(ts[1..])
  }

  /** One well-formed token, written out and parsed back, is itself. */
  lemma RenderTokenParses(t: SlurToken)
    requires t.letter != ' ' && t.level <= 9
    ensures ' ' !in RenderToken(t) && ParseToken(RenderToken(t)) == Ok(t)
  {
    if t.level > 0 {
      var c := DigitChar(t.level);
      assert RenderToken(t) == [t.letter, c];
      ParseOneChar(c);
    }
  }

  /** A well-formed list of tokens, written out and parsed back, is itself. */
  lemma ParseRendered(ts: seq<SlurToken>)
    requires |ts| > 0
    requires forall k :: 0 <= k < |ts| ==> ts[k].letter != ' ' && ts[k].level <= 9
    ensures ParseSlurAttribute(Join(RenderTokens(ts))) == Ok(ts)
  {
    var strs := RenderTokens(ts);
    forall k | 0 <= k < |strs|
      ensures ' ' !in strs[k] && ParseToken(strs[k]) == Ok(ts[k])
    {
      RenderTokenParses(ts[k]);
    }
    var j := Join(strs);
    SplitJoin(strs);
    assert ParseSlurAttribute(j) == ParseTokens(strs);
    var r := ParseTokens(strs);
    assert r.Ok?;
    assert forall k :: 0 <= k < |ts| ==> r.value[k] == ts[k];
    assert r.value == ts;
  }

  /** "i0" and "i10" are refused. */
  lemma SlurTokensRefused()
    ensures ParseSlurAttribute("i0").Err?
    ensures ParseSlurAttribute("i10").Err?
  {
    ParseOneChar('0');
    SplitJoin(["i0"]);
    SplitJoin(["i10"]);
  }

  /** "i t2" is a start at level 0 and an end at level 2. */
  lemma SlurTokenLevels()
    ensures ParseSlurAttribute("i t2") == Ok([SlurToken('i', 0), SlurToken('t', 2)])
  {
    assert Join(["i", "t2"]) == "i t2";
    SplitJoin(["i", "t2"]);
    ParseOneChar('2');
    assert ParseToken("i") == Ok(SlurToken('i', 0));
    assert ParseToken("t2") == Ok(SlurToken('t', 2));
    var r := ParseTokens(["i", "t2"]);
    assert r.Ok? && |r.value| == 2;
    assert r.value[0] == SlurToken('i', 0) && r.value[1] == SlurToken('t', 2);
    assert r.value == [SlurToken('i', 0), SlurToken('t', 2)];
    assert Split("i t2") == ["i", "t2"];
  }

  // ---------------------------------------------------------------------
  // start_tieslur, terminate_tie, terminate_slur

  datatype Kind = Tie | Slur

  /** `cmpLinkCond(link.params.linkCond, linkCond)`. For ties a link without a
      condition never matches; for slurs the comparison reads a field of the
      missing condition, a TypeError. */
  function Matches(kind: Kind, p: LinkParams, c: LinkCond): (r: Res<bool>)
    ensures r.Ok? ==> (r.value <==> p == Cond(c))
    ensures r.Err? <==> kind == Slur && !p.Cond?
  {
    match kind
    case Tie => Ok(p.Cond? && p.cond == c)
    case Slur => if p.Cond? then Ok(p.cond == c) else Err(NoLinkCondition)
  }

  /** `make_tieslur(startid, endid, container)`. */
  function MakeTieSlur(startid: Option<string>, endid: Option<string>, links: seq<EventLink>): (r: seq<EventLink>)
    ensures |r| == |links| + 1 && r[..|links|] == links
    ensures r[|links|].first.xmlid == startid && r[|links|].last.xmlid == endid
    ensures r[|links|].params == NoParams && r[|links|].context.None?
  {
    links + [NewLink(startid, endid)]
  }

  /** `start_tieslur(startid, linkCond, container)`: an open link from the note. */
  function StartTieSlur(startid: string, c: LinkCond, links: seq<EventLink>): (r: seq<EventLink>)
    ensures |r| == |links| + 1 && r[..|links|] == links
    ensures r[|links|].first.xmlid == Some(startid) && Open(r[|links|]) && Settled(r[|links|])
    ensures r[|links|].params == Cond(c)
  {
    links + [SetParams(NewLink(Some(startid), None), Cond(c))]
  }

  /** The loop shared by `terminate_tie` and `terminate_slur`, from link `i`
      on. Each link's end is looked up (which may resolve a waiting timestamp,
      and is remembered); the first open link that matches gets `endid`;
      without one a link with only an end is appended. */
  function TerminateFrom(kind: Kind, links: seq<EventLink>, i: nat, endid: string, c: LinkCond, ids: IdSource, used: nat): (r: Res<(seq<EventLink>, nat)>)
    requires i <= |links|
    ensures r.Ok? ==>
      var ls := r.value.0;
      && (|ls| == |links| || (|ls| == |links| + 1 && ls[|links|] == NewLink(None, Some(endid))))
      && (forall j :: 0 <= j < i ==> ls[j] == links[j])
      && (forall j :: 0 <= j < |links| ==> ls[j].first == links[j].first && ls[j].params == links[j].params)
      && r.value.1 >= used
    decreases |links| - i
  {
    if i == |links| then Ok((links + [NewLink(None, Some(endid))], used))
    else
      var (lastId, l, used') :- GetLastId(links[i], ids, used);
      var links' := links[i := l];
      if !Truthy(lastId) then
        var m :- Matches(kind, l.params, c);
        if m then Ok((links'[i := SetLastId(l, Some(endid))], used'))
        else TerminateFrom(kind, links', i + 1, endid, c, ids, used')
      else TerminateFrom(kind, links', i + 1, endid, c, ids, used')
  }

  /** `terminate_tie(endid, linkCond)`: a tie end needs a pitch name and an
      octave. */
  function TerminateTie(ties: seq<EventLink>, endid: string, pname: string, oct: string, system: int, ids: IdSource, used: nat): (r: Res<(seq<EventLink>, nat)>)
    ensures pname == "" || oct == "" ==> r.Err?
  {
    if pname == "" || oct == "" then Err(InvalidArgument("no pitch or octave specified for the tie"))
    else TerminateFrom(Tie, ties, 0, endid, TieKey(pname, oct, system), ids, used)
  }

  /** `terminate_slur(endid, linkCond)`. */
  function TerminateSlur(slurs: seq<EventLink>, endid: string, level: nat, system: int, ids: IdSource, used: nat): Res<(seq<EventLink>, nat)>
  {
    TerminateFrom(Slur, slurs, 0, endid, SlurKey(level, system), ids, used)
  }

  // ---------------------------------------------------------------------
  // Reference: matching over settled links

  /** The first open link at or after `i` with key `c`, or -1. */
  function FirstOpenMatch(links: seq<EventLink>, c: LinkCond, i: nat): (k: int)
    requires i <= |links|
    ensures k == -1 || i <= k < |links|
    ensures k >= 0 ==> Open(links[k]) && links[k].params == Cond(c)
    ensures forall j :: i <= j < (if k >= 0 then k else |links|) ==> !(Open(links[j]) && links[j].params == Cond(c))
    decreases |links| - i
  {
    if i == |links| then -1
    else if Open(links[i]) && links[i].params == Cond(c) then i
    else FirstOpenMatch(links, c, i + 1)
  }

  /** For slurs: an open link without a condition at a position in `[i, stop)`
      that the loop reaches before it finds a match. */
  predicate Blocked(kind: Kind, links: seq<EventLink>, i: nat, stop: int)
    requires stop <= |links|
  {
    kind == Slur && exists j :: i <= j < stop && Open(links[j]) && !links[j].params.Cond?
  }

  /** What terminating does to settled links: the first open link with the same
      key, in creation order, gets the end and nothing else changes; with none,
      an end-only link is appended; a slur raises if an open link without a
      condition comes first. */
  function Expected(kind: Kind, links: seq<EventLink>, endid: string, c: LinkCond, used: nat): Res<(seq<EventLink>, nat)>
  {
    var k := FirstOpenMatch(links, c, 0);
    var stop := if k >= 0 then k else |links|;
    if Blocked(kind, links, 0, stop) then Err(NoLinkCondition)
    else if k >= 0 then Ok((links[k := SetLastId(links[k], Some(endid))], used))
    else Ok((links + [NewLink(None, Some(endid))], used))
  }

  lemma {:induction false} TerminateFromSettled(kind: Kind, links: seq<EventLink>, i: nat, endid: string, c: LinkCond, ids: IdSource, used: nat)
    requires i <= |links|
    requires forall j :: 0 <= j < |links| ==> Settled(links[j])
    ensures var k := FirstOpenMatch(links, c, i);
      var stop := if k >= 0 then k else |links|;
      TerminateFrom(kind, links, i, endid, c, ids, used) ==
        if Blocked(kind, links, i, stop) then Err(NoLinkCondition)
        else if k >= 0 then Ok((links[k := SetLastId(links[k], Some(endid))], used))
        else Ok((links + [NewLink(None, Some(endid))], used))
    decreases |links| - i
  {
    if i < |links| {
      var l := links[i];
      GetLastIdSettled(l, ids, used);
      assert links[i := l] == links;
      var k := FirstOpenMatch(links, c, i);
      var stop := if k >= 0 then k else |links|;
      if Open(l) {
        if kind == Slur && !l.params.Cond? {
          assert Blocked(kind, links, i, stop);
        } else if l.params == Cond(c) {
          assert k == i;
          assert !Blocked(kind, links, i, stop);
        } else {
          TerminateFromSettled(kind, links, i + 1, endid, c, ids, used);
          assert k == FirstOpenMatch(links, c, i + 1);
          assert Blocked(kind, links, i, stop) == Blocked(kind, links, i + 1, stop);
        }
      } else {
        TerminateFromSettled(kind, links, i + 1, endid, c, ids, used);
        assert k == FirstOpenMatch(links, c, i + 1);
        assert Blocked(kind, links, i, stop) == Blocked(kind, links, i + 1, stop);
      }
    }
  }

  /** Terminating over settled links is `Expected`. */
  lemma TerminateSettled(kind: Kind, links: seq<EventLink>, endid: string, c: LinkCond, ids: IdSource, used: nat)
    requires forall j :: 0 <= j < |links| ==> Settled(links[j])
    ensures TerminateFrom(kind, links, 0, endid, c, ids, used) == Expected(kind, links, endid, c, used)
  {
    TerminateFromSettled(kind, links, 0, endid, c, ids, used);
  }

  /** After its end was looked up, a link the loop passes over: it is closed
      or has another key. */
  predicate PassedOver(l: EventLink, c: LinkCond) {
    !(Open(l) && l.params == Cond(c))
  }

  /** Terminating from `i` closed link `k`: every link the loop looked at
      before `k` was passed over, `k` has the key and the end, and the links
      after `k` were not looked at. */
  predicate ClosesAt(links: seq<EventLink>, ls: seq<EventLink>, k: int, i: nat, endid: string, c: LinkCond) {
    && i <= k < |links| && |ls| == |links|
    && ls[k].params == Cond(c) && ls[k].last.xmlid == Some(endid)
    && (forall j :: i <= j < k ==> PassedOver(ls[j], c))
    && (forall j :: k < j < |links| ==> ls[j] == links[j])
  }

  /** Terminating from `i` closed nothing: every link from `i` on was passed
      over, and an end-only link was appended. */
  predicate AppendsEnd(links: seq<EventLink>, ls: seq<EventLink>, i: nat, endid: string, c: LinkCond) {
    && |ls| == |links| + 1 && ls[|links|] == NewLink(None, Some(endid))
    && (forall j :: i <= j < |links| ==> PassedOver(ls[j], c))
  }

  // The induction below walks ranges with recursive predicates, which the
  // verifier unfolds one step at a time; `RangesMean` turns them back into
  // the quantified statements of `ClosesAt` and `AppendsEnd`.

  /** Every link in `[from, to)` of `ls` was passed over. */
  predicate PassedRange(ls: seq<EventLink>, c: LinkCond, from: nat, to: nat)
    requires from <= to <= |ls|
    decreases (to as int) - (from as int)
  {
    from == to || (PassedOver(ls[from], c) && PassedRange(ls, c, from + 1, to))
  }

  /** `ls` and `links` agree on `[from, to)`. */
  predicate SameRange(links: seq<EventLink>, ls: seq<EventLink>, from: nat, to: nat)
    requires from <= to <= |links| && to <= |ls|
    decreases (to as int) - (from as int)
  {
    from == to || (ls[from] == links[from] && SameRange(links, ls, from + 1, to))
  }

  /** On `[from, to)`, every settled link of `links` is in `ls` as it was, or
      with the end set. */
  predicate KeptRange(links: seq<EventLink>, ls: seq<EventLink>, endid: string, from: nat, to: nat)
    requires from <= to <= |links| && to <= |ls|
    decreases (to as int) - (from as int)
  {
    from == to ||
    ((Settled(links[from]) ==> ls[from] == links[from] || ls[from] == SetLastId(links[from], Some(endid)))
     && KeptRange(links, ls, endid, from + 1, to))
  }

  lemma {:induction false} PassedRangeMeans(ls: seq<EventLink>, c: LinkCond, from: nat, to: nat)
    requires from <= to <= |ls|
    ensures PassedRange(ls, c, from, to) <==> (forall j :: from <= j < to ==> PassedOver(ls[j], c))
    decreases (to as int) - (from as int)
  {
    if from < to {
      PassedRangeMeans(ls, c, from + 1, to);
    }
  }

  lemma {:induction false} SameRangeMeans(links: seq<EventLink>, ls: seq<EventLink>, from: nat, to: nat)
    requires from <= to <= |links| && to <= |ls|
    ensures SameRange(links, ls, from, to) <==> (forall j :: from <= j < to ==> ls[j] == links[j])
    decreases (to as int) - (from as int)
  {
    if from < to {
      SameRangeMeans(links, ls, from + 1, to);
    }
  }

  lemma {:induction false} KeptRangeMeans(links: seq<EventLink>, ls: seq<EventLink>, endid: string, from: nat, to: nat)
    requires from <= to <= |links| && to <= |ls|
    ensures KeptRange(links, ls, endid, from, to) <==>
      (forall j :: from <= j < to && Settled(links[j]) ==> ls[j] == links[j] || ls[j] == SetLastId(links[j], Some(endid)))
    decreases (to as int) - (from as int)
  {
    if from < to {
      KeptRangeMeans(links, ls, endid, from + 1, to);
    }
  }

  /** Changing link `i` does not touch a range after it. */
  lemma {:induction false} RangesAfterUpdate(links: seq<EventLink>, l: EventLink, ls: seq<EventLink>, endid: string, i: nat, from: nat, to: nat)
    requires i < from <= to <= |links| && to <= |ls|
    ensures SameRange(links[i := l], ls, from, to) ==> SameRange(links, ls, from, to)
    ensures KeptRange(links[i := l], ls, endid, from, to) ==> KeptRange(links, ls, endid, from, to)
    decreases (to as int) - (from as int)
  {
    if from < to {
      RangesAfterUpdate(links, l, ls, endid, i, from + 1, to);
    }
  }

  /** `ClosesAt` and `AppendsEnd` with the ranges walked recursively. */
  predicate ClosesAtR(links: seq<EventLink>, ls: seq<EventLink>, k: int, i: nat, endid: string, c: LinkCond) {
    && i <= k < |links| && |ls| == |links|
    && ls[k].params == Cond(c) && ls[k].last.xmlid == Some(endid)
    && PassedRange(ls, c, i, k) && SameRange(links, ls, k + 1, |links|)
  }

  predicate AppendsEndR(links: seq<EventLink>, ls: seq<EventLink>, i: nat, endid: string, c: LinkCond) {
    && i <= |links| && |ls| == |links| + 1 && ls[|links|] == NewLink(None, Some(endid))
    && PassedRange(ls, c, i, |links|)
  }

  lemma RangesMean(links: seq<EventLink>, ls: seq<EventLink>, k: int, i: nat, endid: string, c: LinkCond)
    ensures ClosesAtR(links, ls, k, i, endid, c) ==> ClosesAt(links, ls, k, i, endid, c)
    ensures AppendsEndR(links, ls, i, endid, c) ==> AppendsEnd(links, ls, i, endid, c)
  {
    if ClosesAtR(links, ls, k, i, endid, c) {
      PassedRangeMeans(ls, c, i, k);
      SameRangeMeans(links, ls, k + 1, |links|);
    }
    if AppendsEndR(links, ls, i, endid, c) {
      PassedRangeMeans(ls, c, i, |links|);
    }
  }

  /** One turn of the loop at link `i`, which ends with `(ls, u)`: the
      link's end is looked up, giving `l`; then `l` is either closed, or
      passed over and the rest of the loop ends with `(ls, u)`. */
  lemma TerminateStep(kind: Kind, links: seq<EventLink>, i: nat, endid: string, c: LinkCond, ids: IdSource, used: nat, ls: seq<EventLink>, u: nat)
      returns (l: EventLink, used': nat, closes: bool)
    requires i < |links|
    requires TerminateFrom(kind, links, i, endid, c, ids, used) == Ok((ls, u))
    ensures |ls| >= |links|
    ensures Settled(links[i]) ==> l == links[i]
    ensures closes ==> Open(l) && l.params == Cond(c) && ls == links[i := SetLastId(l, Some(endid))]
    ensures !closes ==> PassedOver(l, c) && TerminateFrom(kind, links[i := l], i + 1, endid, c, ids, used') == Ok((ls, u))
    ensures !closes ==> ls[i] == l
  {
    var lastId;
    lastId, l, used' := GetLastId(links[i], ids, used).value.0, GetLastId(links[i], ids, used).value.1, GetLastId(links[i], ids, used).value.2;
    if Settled(links[i]) {
      GetLastIdSettled(links[i], ids, used);
    }
    closes := !Truthy(lastId) && Matches(kind, l.params, c).value;
  }

  /** The loop past the last link appends an end-only link. */
  lemma TerminateDone(kind: Kind, links: seq<EventLink>, endid: string, c: LinkCond, ids: IdSource, used: nat, ls: seq<EventLink>, u: nat)
    requires TerminateFrom(kind, links, |links|, endid, c, ids, used) == Ok((ls, u))
    ensures AppendsEndR(links, ls, |links|, endid, c)
    ensures KeptRange(links, ls, endid, |links|, |links|)
  {
  }

  /** Closing the looked-up link `l` at `i`. */
  lemma ClosesHere(links: seq<EventLink>, l: EventLink, i: nat, endid: string, c: LinkCond)
    requires i < |links| && Open(l) && l.params == Cond(c)
    requires Settled(links[i]) ==> l == links[i]
    ensures var ls := links[i := SetLastId(l, Some(endid))];
      ClosesAtR(links, ls, i, i, endid, c) && KeptRange(links, ls, endid, i, |links|)
  {
    var ls := links[i := SetLastId(l, Some(endid))];
    SameRangeMeans(links, ls, i + 1, |links|);
    KeptRangeMeans(links, ls, endid, i, |links|);
  }

  /** A link passed over at `i` extends what the rest of the loop did. */
  lemma PassedOverShifts(links: seq<EventLink>, l: EventLink, ls: seq<EventLink>, i: nat, k: int, endid: string, c: LinkCond)
    requires i < |links| <= |ls| && ls[i] == l && PassedOver(l, c)
    requires Settled(links[i]) ==> l == links[i]
    requires k == -1 ==> AppendsEndR(links[i := l], ls, i + 1, endid, c)
    requires k != -1 ==> ClosesAtR(links[i := l], ls, k, i + 1, endid, c)
    requires KeptRange(links[i := l], ls, endid, i + 1, |links|)
    ensures k == -1 ==> AppendsEndR(links, ls, i, endid, c)
    ensures k != -1 ==> ClosesAtR(links, ls, k, i, endid, c)
    ensures KeptRange(links, ls, endid, i, |links|)
  {
    RangesAfterUpdate(links, l, ls, endid, i, i + 1, |links|);
    if k != -1 {
      RangesAfterUpdate(links, l, ls, endid, i, k + 1, |links|);
    }
  }

  /** The loop from `i`, which ends with `(ls, u)`: `k` is the link it
      closed, or -1; settled links are kept. */
  lemma {:induction false} TerminateFromShape(kind: Kind, links: seq<EventLink>, i: nat, endid: string, c: LinkCond, ids: IdSource, used: nat, ls: seq<EventLink>, u: nat)
      returns (k: int)
    requires i <= |links|
    requires TerminateFrom(kind, links, i, endid, c, ids, used) == Ok((ls, u))
    ensures |ls| >= |links|
    ensures k == -1 ==> AppendsEndR(links, ls, i, endid, c)
    ensures k != -1 ==> ClosesAtR(links, ls, k, i, endid, c)
    ensures KeptRange(links, ls, endid, i, |links|)
    decreases |links| - i, 1
  {
    if i == |links| {
      TerminateDone(kind, links, endid, c, ids, used, ls, u);
      k := -1;
    } else {
      var l, used', closes := TerminateStep(kind, links, i, endid, c, ids, used, ls, u);
      if closes {
        ClosesHere(links, l, i, endid, c);
        k := i;
      } else {
        k := PassOverShape(kind, links, l, i, endid, c, ids, used', ls, u);
      }
    }
  }

  /** The loop having passed over the looked-up link `l` at `i`. */
  lemma {:induction false} PassOverShape(kind: Kind, links: seq<EventLink>, l: EventLink, i: nat, endid: string, c: LinkCond, ids: IdSource, used': nat, ls: seq<EventLink>, u: nat)
      returns (k: int)
    requires i < |links| <= |ls| && ls[i] == l && PassedOver(l, c)
    requires Settled(links[i]) ==> l == links[i]
    requires TerminateFrom(kind, links[i := l], i + 1, endid, c, ids, used') == Ok((ls, u))
    ensures k == -1 ==> AppendsEndR(links, ls, i, endid, c)
    ensures k != -1 ==> ClosesAtR(links, ls, k, i, endid, c)
    ensures KeptRange(links, ls, endid, i, |links|)
    decreases |links| - i, 0
  {
    k := TerminateFromShape(kind, links[i := l], i + 1, endid, c, ids, used', ls, u);
    PassedOverShifts(links, l, ls, i, k, endid, c);
  }

  /** Whatever the links hold: a terminated end closes the first link that is
      open with the same key once its own end has been looked up, or is
      appended as an end-only link when there is none; besides that link,
      only links whose lookups can change them (not `Settled`) change. */
  lemma TerminateGeneral(kind: Kind, links: seq<EventLink>, endid: string, c: LinkCond, ids: IdSource, used: nat)
    requires TerminateFrom(kind, links, 0, endid, c, ids, used).Ok?
    ensures var ls := TerminateFrom(kind, links, 0, endid, c, ids, used).value.0;
      && (forall j :: 0 <= j < |links| && Settled(links[j]) ==>
            ls[j] == links[j] || ls[j] == SetLastId(links[j], Some(endid)))
      && (AppendsEnd(links, ls, 0, endid, c) || exists k :: ClosesAt(links, ls, k, 0, endid, c))
  {
    var (ls, u) := TerminateFrom(kind, links, 0, endid, c, ids, used).value;
    var k := TerminateFromShape(kind, links, 0, endid, c, ids, used, ls, u);
    RangesMean(links, ls, k, 0, endid, c);
    KeptRangeMeans(links, ls, endid, 0, |links|);
    if k != -1 {
      assert ClosesAt(links, ls, k, 0, endid, c);
    }
  }

  /** Ties never raise over settled links, and the result is settled again. */
  lemma TerminateKeepsSettled(kind: Kind, links: seq<EventLink>, endid: string, c: LinkCond, used: nat)
    requires forall j :: 0 <= j < |links| ==> Settled(links[j])
    ensures kind == Tie ==> Expected(kind, links, endid, c, used).Ok?
    ensures var r := Expected(kind, links, endid, c, used);
      r.Ok? ==> forall j :: 0 <= j < |r.value.0| ==> Settled(r.value.0[j])
  {
  }

  // ---------------------------------------------------------------------
  // make_note: the per-character tie and per-token slur dispatch

  /** The links a note's @tie and @slur act on, and how many fresh ids are used. */
  datatype Chains = Chains(ties: seq<EventLink>, slurs: seq<EventLink>, used: nat)

  predicate AllSettled(links: seq<EventLink>) {
    forall j :: 0 <= j < |links| ==> Settled(links[j])
  }

  /** `switch (mei_tie[i])` for every character: 'i' starts a tie, 't' ends
      one, anything else is ignored. */
  function TieDispatch(tie: string, id: string, pname: string, oct: string, system: int, ties: seq<EventLink>, ids: IdSource, used: nat): (r: Res<(seq<EventLink>, nat)>)
    requires pname != "" && oct != ""
    ensures r.Ok? ==> r.value.1 >= used
    decreases |tie|
  {
    if |tie| == 0 then Ok((ties, used))
    else
      var step :-
        if tie[0] == 'i' then Ok((StartTieSlur(id, TieKey(pname, oct, system), ties), used))
        else if tie[0] == 't' then TerminateTie(ties, id, pname, oct, system, ids, used)
        else Ok((ties, used));
      TieDispatch(tie[1..], id, pname, oct, system, step.0, ids, step.1)
  }

  /** Terminating over settled links leaves them settled and uses no id. */
  lemma TerminateSettledSettles(kind: Kind, links: seq<EventLink>, endid: string, c: LinkCond, ids: IdSource, used: nat)
    requires AllSettled(links)
    ensures var r := TerminateFrom(kind, links, 0, endid, c, ids, used);
      && (kind == Tie ==> r.Ok?)
      && (r.Ok? ==> AllSettled(r.value.0) && r.value.1 == used)
  {
    TerminateSettled(kind, links, endid, c, ids, used);
    TerminateKeepsSettled(kind, links, endid, c, used);
  }

  /** The slur tokens in order: 'i' starts a slur, 't' ends one. */
  function SlurDispatch(toks: seq<SlurToken>, id: string, system: int, slurs: seq<EventLink>, ids: IdSource, used: nat): (r: Res<(seq<EventLink>, nat)>)
    ensures r.Ok? ==> r.value.1 >= used
    decreases |toks|
  {
    if |toks| == 0 then Ok((slurs, used))
    else
      var t := toks[0];
      var step :-
        if t.letter == 'i' then Ok((StartTieSlur(id, SlurKey(t.level, system), slurs), used))
        else if t.letter == 't' then TerminateSlur(slurs, id, t.level, system, ids, used)
        else Ok((slurs, used));
      SlurDispatch(toks[1..], id, system, step.0, ids, step.1)
  }

  /** Over settled ties the @tie dispatch never raises, uses no fresh id and
      leaves every tie settled. */
  lemma {:induction false} TieDispatchSettled(tie: string, id: string, pname: string, oct: string, system: int, ties: seq<EventLink>, ids: IdSource, used: nat)
    requires pname != "" && oct != "" && AllSettled(ties)
    ensures var r := TieDispatch(tie, id, pname, oct, system, ties, ids, used);
      r.Ok? && AllSettled(r.value.0) && r.value.1 == used
    decreases |tie|
  {
    if |tie| > 0 {
      var c := TieKey(pname, oct, system);
      if tie[0] == 'i' {
        TieDispatchSettled(tie[1..], id, pname, oct, system, StartTieSlur(id, c, ties), ids, used);
      } else if tie[0] == 't' {
        TerminateSettledSettles(Tie, ties, id, c, ids, used);
        var step := TerminateTie(ties, id, pname, oct, system, ids, used).value;
        TieDispatchSettled(tie[1..], id, pname, oct, system, step.0, ids, used);
      } else {
        TieDispatchSettled(tie[1..], id, pname, oct, system, ties, ids, used);
      }
    }
  }

  /** Over settled slurs the slur dispatch uses no fresh id and leaves every
      slur settled. */
  lemma {:induction false} SlurDispatchSettled(toks: seq<SlurToken>, id: string, system: int, slurs: seq<EventLink>, ids: IdSource, used: nat)
    requires AllSettled(slurs)
    ensures var r := SlurDispatch(toks, id, system, slurs, ids, used);
      r.Ok? ==> AllSettled(r.value.0) && r.value.1 == used
    decreases |toks|
  {
    if |toks| > 0 {
      var t := toks[0];
      var c := SlurKey(t.level, system);
      if t.letter == 'i' {
        SlurDispatchSettled(toks[1..], id, system, StartTieSlur(id, c, slurs), ids, used);
      } else if t.letter == 't' {
        TerminateSettledSettles(Slur, slurs, id, c, ids, used);
        var step := TerminateSlur(slurs, id, t.level, system, ids, used);
        if step.Ok? {
          SlurDispatchSettled(toks[1..], id, system, step.value.0, ids, used);
        }
      } else {
        SlurDispatchSettled(toks[1..], id, system, slurs, ids, used);
      }
    }
  }

  /** The part of `make_note` that gives the note an id and feeds its @tie and
      @slur to the link lists, within system `system`. A note without a
      (non-empty) xml:id gets the next fresh id, written into it; @pname and
      @oct are mandatory. */
  function NoteLinks(note: Node, system: int, ch: Chains, ids: IdSource): (r: Res<(Node, Chains)>)
    ensures r.Ok? ==> Id(r.value.0) == if Truthy(Id(note)) then Id(note) else Some(ids(ch.used))
    ensures r.Ok? && Truthy(Id(note)) ==> r.value.0 == note
    ensures r.Ok? && !Truthy(Id(note)) ==> r.value.0 == SetId(note, ids(ch.used)) && r.value.1.used >= ch.used + 1
    ensures AttrT(note, "pname").None? || AttrT(note, "oct").None? ==> r.Err?
  {
    var (id, note', used) :=
      if Truthy(Id(note)) then (Id(note).value, note, ch.used)
      else (ids(ch.used), SetId(note, ids(ch.used)), ch.used + 1);
    var tie := if AttrT(note, "tie").Some? then AttrT(note, "tie").value else "";
    var pname :- if AttrT(note, "pname").Some? then Ok(AttrT(note, "pname").value) else Err(MissingAttribute("pname"));
    var oct :- if AttrT(note, "oct").Some? then Ok(AttrT(note, "oct").value) else Err(MissingAttribute("oct"));
    var (ties, used') :- TieDispatch(tie, id, pname, oct, system, ch.ties, ids, used);
    if AttrT(note, "slur").Some? then
      var toks :- ParseSlurAttribute(AttrT(note, "slur").value);
      var (slurs, used'') :- SlurDispatch(toks, id, system, ch.slurs, ids, used');
      Ok((note', Chains(ties, slurs, used'')))
    else Ok((note', Chains(ties, ch.slurs, used')))
  }
}
