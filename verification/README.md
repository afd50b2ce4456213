# MEItoVexFlow core, modelled in Dafny

MEItoVexFlow renders MEI (Music Encoding Initiative) scores with VexFlow.
Around the drawing sit three pieces of logic, and this project models them:

- **MeiLib's temporal functions.** The event enumerator flattens a layer's
  notes, rests, measure rests and chords, stepping into beams. `durationOf`,
  `dur2beats` and `beats2dur` measure events in beats. `sumUpUntil` and
  `id2tstamp` turn an xml:id into a beat position. `tstamp2id` does the
  reverse with a nearest-event search, and gives the winning event a fresh
  xml:id when it has none.
- **Event links.** `EventReference` and `EventLink` are the two ends of a
  tie, slur or hairpin, with memoised id lookup. `extract_linkingElements`
  turns `<tie>`, `<slur>` and `<hairpin>` elements into links and files
  forward references in the `unresolvedTStamp2` table. `extract_events`
  drains that table. Notes drive the tie and slur matching through their
  `@tie` and `@slur` attributes.
- **The staff-definition tracker.** `StaffInfo`, `look4changes`,
  `updateDef`, `process_staffDef` and `process_staffGrp` keep the current
  definition of each staff. `startSystem` and `initialise_staff_n` decide
  which of clef, key signature and time signature the next stave shows.
- **The small converters.** Durations, accidentals, key, clef and time
  specifications, the key comparison behind stem directions, the parts of a
  `tstamp2` value, and the measure count of a system.

The modules follow that structure:

| module | file | contents |
|---|---|---|
| `Wrappers` | wrappers.dfy | `Option` and `Result` |
| `Numbers` | numbers.dfy | JavaScript `Number(string)` over exact reals, `toString` of integers, array-index keys |
| `Mei` | mei.dfy | the node tree, attribute reads, `find`/`children`, error kinds |
| `Enumeration` | enumerator.dfy | `EventEnumerator` |
| `Durations` | durations.dfy | `durationOf`, `dur2beats`, `beats2dur` |
| `Temporal` | temporal.dfy | `sumUpUntil`, `id2tstamp`, `tstamp2id` |
| `Links` | links.dfy | `EventReference`, `EventLink` |
| `TieSlur` | tieslur.dfy | `parse_slur_attribute`, `start_tieslur`, `terminate_tie`, `terminate_slur`, the per-note dispatch |
| `Converters` | converters.dfy | the `mei_*2vex_*` converters, `vex_key_cmp`, `measure_partOf`, `beat_partOf`, `count_measures_siblings_till_sb` |
| `Staves` | staves.dfy | `StaffInfo`, `process_staffDef`, `process_staffGrp`, `startSystem`, `initialise_staff_n` |
| `Scan` | scan.dfy | `local_tstamp2id`, `extract_linkingElements`, the forward-reference table and its draining in `extract_events` |

Modelling choices:

- An MEI element is `Node(tag, attrs, children)`. A jQuery selection is a
  `seq<Node>`. An absent attribute is `None`.
- JavaScript numbers are exact `real`s and NaN is `None`. `Number(s)` accepts
  an optional sign, digits and an optional fraction, and reads the empty
  string as 0.
- Every `throw` becomes an `Err`. So do the places where the source would go
  on with NaN, `undefined` or a TypeError; those cases are listed below.
- The source mutates shared objects. The model threads the state through
  pure functions instead:
  - a `ScanState` holds the tie, slur and hairpin lists, the forward table
    and the staff table;
  - the forward table stores positions in those lists (`LinkRef`), where the
    source stores the shared link objects themselves.
- `createPseudoUUID` is random. The model takes the sequence of ids it would
  return as a parameter `ids: nat -> string` and counts how many are used.
  Nothing is claimed about their uniqueness.
- The staff table `staffInfoArray` is a map from natural numbers. Where the
  source indexes it with a string (`staffInfoArray[staff_n]` with `staff_n`
  an attribute value), only the canonical numeral of a natural number finds
  an entry: "1" does, "01" and "1.0" do not. `Scan.StaffDefOf` states this.

## Model

All source cells refer to javascripts/meitovexflow-min.js.

| member | source | states |
|---|---|---|
| Numbers.IndexOf | javascripts/meitovexflow-min.js:1081 | `indexOf` gives the first position of the character, and -1 exactly when it does not occur |
| Numbers.ParseNatToString | javascripts/meitovexflow-min.js:1128-1129 | reading back a rendered natural number with `Number` gives the number |
| Numbers.IntToStringInjective | javascripts/meitovexflow-min.js:1129 | distinct target measure numbers give distinct table keys |
| Numbers.ParseOneChar | javascripts/meitovexflow-min.js:1226 | `Number(c)` of one character is non-zero exactly for the digits 1 to 9, and is then that digit |
| Numbers.NumberIndex | javascripts/meitovexflow-min.js:974-975 | a number indexes an array element exactly when it is a non-negative integer, and then it is that element |
| Numbers.StringIndexIff | javascripts/meitovexflow-min.js:1024 | a string names array element n exactly when it is n rendered by `toString` |
| Enumeration.Init | javascripts/meitovexflow-min.js:34-42 | a null node raises; otherwise the cursor holds what stepping through the children yields |
| Enumeration.NextEvent | javascripts/meitovexflow-min.js:44-51 | `nextEvent` raises exactly at EoI; otherwise it returns the next event and the cursor moves past it |
| Enumeration.RunIsLeaves | javascripts/meitovexflow-min.js:53-88 | on events and non-empty beams of them, stepping yields exactly the left-to-right leaf events, whatever the starting EoI flag |
| Enumeration.EnumeratesLeaves | javascripts/meitovexflow-min.js:30-88 | the k-th `nextEvent` is the k-th leaf event; EoI is false exactly while an event remains; `nextEvent` at EoI raises |
| Enumeration.EnumeratorQuirks | javascripts/meitovexflow-min.js:73-84 | a non-event first child ends enumeration, as does an empty beam or a non-event right after a beam; a non-event right after an event is handed out |
| Durations.Dur2Beats | javascripts/meitovexflow-min.js:269-271 | beats times the duration code is the meter unit |
| Durations.Beats2Dur | javascripts/meitovexflow-min.js:281-283 | the duration code times the beats is the meter unit |
| Durations.Beats2DurInvertsDur2Beats | javascripts/meitovexflow-min.js:269-283 | `beats2dur(dur2beats(d, m), m) == d` for non-zero d and unit |
| Durations.DurationCode | javascripts/meitovexflow-min.js:104 | a duration code is accepted exactly when `Number` reads it as a non-zero number, and is that number |
| Durations.DurationOf | javascripts/meitovexflow-min.js:141-152 | only notes, rests, spaces, measure rests, chords and beams have a length; a measure rest lasts `meter.count` |
| Durations.SimpleEventBeats | javascripts/meitovexflow-min.js:101-105 | a note, rest or space without @dur raises; with one it lasts `unit / @dur` |
| Durations.ChordOwnDurIgnoresNotes | javascripts/meitovexflow-min.js:109-110 | a chord with its own @dur has the same length whatever notes it holds |
| Durations.ChordNotesDurFixed | javascripts/meitovexflow-min.js:111-118 | once a @dur is agreed, the loop succeeds exactly when every member of the layer repeats it |
| Durations.ChordMembersAgree | javascripts/meitovexflow-min.js:111-120 | no member with @dur gives none; otherwise the first one's @dur wins if every later member repeats it, and the chord is ambiguous if one differs or lacks it |
| Durations.ChordDuration | javascripts/meitovexflow-min.js:107-121 | `durationOf_Chord`: its own @dur wins, else the @dur its notes agree on, else it raises; no ensures of its own, `Durations.ChordOwnDurIgnoresNotes`, `Durations.ChordMembersAgree` and `Durations.ChordScenarios` state it |
| Durations.ChordScenarios | javascripts/meitovexflow-min.js:107-121 | a chord with @dur="4" lasts one beat in 4/4; a chord whose notes say 4 and 8 is ambiguous |
| Durations.BeamIsSumOfChildren | javascripts/meitovexflow-min.js:123-138 | a beam of notes, rests, spaces and chords lasts the sum of its children's lengths |
| Durations.BeamDuration | javascripts/meitovexflow-min.js:123-138 | `durationOf_Beam` as evidently intended; no ensures of its own, `Durations.BeamIsSumOfChildren` states that it is the sum of the children's lengths |
| Durations.BeamDurationAsWritten | javascripts/meitovexflow-min.js:123-139 | as written, a beam raises as soon as it has a child, and an empty beam lasts 0 |
| Durations.BeamAsWrittenRaises | javascripts/meitovexflow-min.js:125-130 | a beam with one quarter note raises as written but lasts one beat as a sum |
| Temporal.SumInNode | javascripts/meitovexflow-min.js:297-357 | the only failure of the per-node sum is a non-numeric duration |
| Temporal.SumSeq | javascripts/meitovexflow-min.js:319-330 | the loop over a layer or beam fails only on a non-numeric duration |
| Temporal.LastInspected | javascripts/meitovexflow-min.js:345-352 | the loop over a chord without @dur fails only on a non-numeric duration |
| Temporal.SumSeqIsPrefixTotal | javascripts/meitovexflow-min.js:319-330 | over notes, rests, measure rests and beams, the loop reports `found` with the beats strictly before the first leaf with the id, or not `found` with all beats |
| Temporal.SumUpUntilLayer | javascripts/meitovexflow-min.js:293-361 | `sumUpUntil` on such a layer is the beats before the target with `found`, or the whole layer without |
| Temporal.SumUpUntil | javascripts/meitovexflow-min.js:293-361 | `sumUpUntil` is the per-node sum over the layer; no ensures of its own, `Temporal.SumInNode` gives its failures and `Temporal.SumUpUntilLayer` its result on layers of timed events |
| Temporal.SumUpUntilExample | javascripts/meitovexflow-min.js:293-361 | quarter, quarter, eighth in 4/4: two beats come before the eighth |
| Temporal.Id2TstampFrom | javascripts/meitovexflow-min.js:248-258 | the loop from measure i returns the first later measure containing the id, with its beat, under the meter carried forward |
| Temporal.Id2Tstamp | javascripts/meitovexflow-min.js:245-260 | no meter in the first measure raises; a result is the first measure containing the id, at beats+1; "not found" means no measure contains it |
| Temporal.Id2TstampComplete | javascripts/meitovexflow-min.js:248-257 | when measure i is the first to contain the id, `id2tstamp` answers measure i at beats+1 |
| Temporal.Id2TstampNotFound | javascripts/meitovexflow-min.js:259 | when no measure contains the id, `id2tstamp` raises "not found" |
| Temporal.Search | javascripts/meitovexflow-min.js:176-182 | the search loop stops at an event at or after where it started |
| Temporal.SearchStops | javascripts/meitovexflow-min.js:176-182 | the loop stops at the first event whose onset is not before the timestamp, or at the last event, with the distances of it and the event before |
| Temporal.IndexIsWinner | javascripts/meitovexflow-min.js:184-191 | the event returned is the winner of where the loop stopped |
| Temporal.Tstamp2IdOn | javascripts/meitovexflow-min.js:165-199 | undefined exactly when the layer yields no events; a fresh id exactly when the winner has no xml:id, else the winner's id |
| Temporal.Tstamp2Id | javascripts/meitovexflow-min.js:165-199 | `tstamp2id` is the nearest-event search over the events the enumerator yields; no ensures of its own, `Temporal.Tstamp2IdOn`, `Temporal.Events` and the `Temporal.Nearest` lemmas state its answer |
| Temporal.Events | javascripts/meitovexflow-min.js:171 | `tstamp2id` searches the events the enumerator yields for the layer |
| Temporal.NearestFirst | javascripts/meitovexflow-min.js:165-199 | at or before the first onset, the first event wins |
| Temporal.NearestLast | javascripts/meitovexflow-min.js:165-199 | at or after the last onset, the last event wins |
| Temporal.NearestExact | javascripts/meitovexflow-min.js:165-199 | on an exact onset, that event wins |
| Temporal.NearestBetween | javascripts/meitovexflow-min.js:165-199 | strictly between onsets k and k+1, event k wins exactly when it is strictly closer, so a tie goes to the later event |
| Temporal.Tstamp2IdStable | javascripts/meitovexflow-min.js:192-197 | once the winner carries the returned id, asking again gives the same event and id and generates nothing |
| Links.MeterOf | javascripts/meitovexflow-min.js:1028-1030 | the meter exists exactly when both parts are numbers, and is made of them |
| Links.NewLink | javascripts/meitovexflow-min.js:1448-1456 | a link with the two ids, no params and no context; no ensures of its own, `TieSlur.MakeTieSlur`, `TieSlur.StartTieSlur` and `Scan.NewElementLink` state what it gives |
| Links.SetParams | javascripts/meitovexflow-min.js:1462-1464 | only the params change; no ensures of its own, `TieSlur.StartTieSlur` and `Scan.NewElementLink` state the params a link gets |
| Links.SetFirstId | javascripts/meitovexflow-min.js:1474-1476 | only the first reference's id changes; no ensures of its own, `Scan.StartOf` and `Scan.StartIdFirst` state it |
| Links.SetLastId | javascripts/meitovexflow-min.js:1478-1480 | only the last reference's id changes; no ensures of its own, `TieSlur.TerminateGeneral`, `TieSlur.TerminateSettled` and `Scan.EndIdFirst` state it |
| Links.SetLastTStamp | javascripts/meitovexflow-min.js:1486-1488 | the last reference takes the timestamp as `Links.SetTStamp` states; no ensures of its own, `Scan.EndAhead` states its use for "Nm+b" ends |
| Links.SetContext | javascripts/meitovexflow-min.js:1490-1492 | only the context changes; no ensures of its own, `Scan.DeliverSetsContext` and `Links.GetLastIdAfterContext` state it |
| Links.Resolve | javascripts/meitovexflow-min.js:1536 | the reference's id becomes what `tstamp2id` returns in the context; at most the next fresh id is used |
| Links.TryResolve | javascripts/meitovexflow-min.js:1530-1540 | no timestamp raises; no context clears the id; timestamp and context are kept |
| Links.SetTStamp | javascripts/meitovexflow-min.js:1523-1528 | a reference without an id only stores the timestamp; one with an id is re-resolved at once |
| Links.GetId | javascripts/meitovexflow-min.js:1548-1559 | a stored id is returned unchanged; without a timestamp and a context the answer is null; a returned id is remembered |
| Links.GetIdResolves | javascripts/meitovexflow-min.js:1548-1556 | with no id but a timestamp and a context, `getId` answers what `tstamp2id` finds there |
| Links.GetIdIdempotent | javascripts/meitovexflow-min.js:1548-1550 | asking again after an id was returned gives the same id, changes nothing and uses no fresh id |
| Links.GetFirstId | javascripts/meitovexflow-min.js:1494-1496 | only the first reference changes; a stored first id is returned as is |
| Links.GetLastId | javascripts/meitovexflow-min.js:1498-1500 | only the last reference changes; a stored last id is returned as is |
| Links.GetLastIdSettled | javascripts/meitovexflow-min.js:1498-1500 | on a link without context or waiting end timestamp, `getLastId` is a pure read |
| Links.GetLastIdAfterContext | javascripts/meitovexflow-min.js:1490-1500 | a waiting end timestamp resolves to what `tstamp2id` finds once the link has a context |
| Links.GetLastIdWithoutContext | javascripts/meitovexflow-min.js:1548-1558 | without a context an open link stays unresolved and nothing is looked up |
| TieSlur.Split | javascripts/meitovexflow-min.js:1220 | `split(' ')` gives at least one token and no token holds a space |
| TieSlur.JoinSplit | javascripts/meitovexflow-min.js:1220 | joining the tokens with spaces gives the attribute back |
| TieSlur.SplitJoin | javascripts/meitovexflow-min.js:1220 | splitting a join of space-free tokens gives the tokens back |
| TieSlur.ParseToken | javascripts/meitovexflow-min.js:1222-1230 | a token is accepted exactly when it has one character, or two with a second that `Number` reads as non-zero; its level is then 0, or that digit |
| TieSlur.ParseTokens | javascripts/meitovexflow-min.js:1221-1232 | the list is accepted exactly when every token is, and is their parses in order |
| TieSlur.ParseSlurAttribute | javascripts/meitovexflow-min.js:1218-1233 | the tokens of the attribute split at spaces; no ensures of its own, `TieSlur.ParseTokens`, `TieSlur.ParseRendered` and `TieSlur.SlurTokensRefused` state what is accepted and what it gives |
| TieSlur.ParseRendered | javascripts/meitovexflow-min.js:1218-1233 | well-formed slur tokens written out and parsed back are themselves |
| TieSlur.SlurTokensRefused | javascripts/meitovexflow-min.js:1225-1229 | "i0" and "i10" raise |
| TieSlur.SlurTokenLevels | javascripts/meitovexflow-min.js:1218-1233 | "i t2" is a start at level 0 and an end at level 2 |
| TieSlur.Matches | javascripts/meitovexflow-min.js:1159-1164 | a link matches exactly when its condition equals the note's; a slur link without a condition raises |
| TieSlur.StartTieSlur | javascripts/meitovexflow-min.js:1151-1155 | an open link from the note with the key is appended; nothing else changes |
| TieSlur.MakeTieSlur | javascripts/meitovexflow-min.js:1146-1149 | one link with the given start and end, and no condition or context, is appended; the earlier links stay |
| TieSlur.TerminateFrom | javascripts/meitovexflow-min.js:1167-1193 | the list keeps its length or gains one end-only link; earlier links stay; starts and conditions never change |
| TieSlur.TerminateStep | javascripts/meitovexflow-min.js:1167-1193 | one turn of the loop: a settled link is inspected unchanged; the link either is open with the key and gets the end, which ends the loop, or is passed over and the loop goes on |
| TieSlur.TerminateGeneral | javascripts/meitovexflow-min.js:1157-1216 | whatever the links hold, the end closes the first link that is open with the key once its own end has been looked up, and the links after it stay; with none an end-only link is appended; settled links change only by getting this end |
| TieSlur.TerminateSlur | javascripts/meitovexflow-min.js:1196-1216 | `terminate_slur` is the shared loop with the slur key; no ensures of its own, `TieSlur.TerminateGeneral` and `TieSlur.TerminateSettled` state where the end goes |
| TieSlur.TerminateTie | javascripts/meitovexflow-min.js:1166 | a tie end without pitch name or octave raises |
| TieSlur.TerminateSettled | javascripts/meitovexflow-min.js:1157-1216 | the first open link with an equal key, in creation order, gets the end and nothing else changes; with none an end-only link is appended; a slur raises if an unconditioned open link comes first |
| TieSlur.TerminateKeepsSettled | javascripts/meitovexflow-min.js:1157-1194 | terminating a tie never raises, and the links stay settled |
| TieSlur.TerminateSettledSettles | javascripts/meitovexflow-min.js:1157-1216 | terminating over settled links uses no fresh id and keeps them settled |
| TieSlur.TieDispatch | javascripts/meitovexflow-min.js:1294-1299 | the per-character dispatch only ever uses more fresh ids |
| TieSlur.SlurDispatch | javascripts/meitovexflow-min.js:1305-1310 | the per-token dispatch only ever uses more fresh ids |
| TieSlur.TieDispatchSettled | javascripts/meitovexflow-min.js:1294-1299 | over settled ties the @tie dispatch never raises, uses no fresh id and keeps every tie settled |
| TieSlur.SlurDispatchSettled | javascripts/meitovexflow-min.js:1305-1310 | over settled slurs the dispatch uses no fresh id and keeps every slur settled |
| TieSlur.NoteLinks | javascripts/meitovexflow-min.js:1282-1311 | a note keeps its xml:id or gets the next fresh one, written into it; missing @pname or @oct raises |
| Converters.MeiDur2VexDur | javascripts/meitovexflow-min.js:627-652 | accepted exactly for the seven supported durations, giving a VexFlow duration |
| Converters.VexDur2MeiDur | javascripts/meitovexflow-min.js:631-637 | every VexFlow duration name has an MEI duration |
| Converters.DurRoundTrip | javascripts/meitovexflow-min.js:627-652 | reading the VexFlow name back gives the MEI duration |
| Converters.DurRoundTripBack | javascripts/meitovexflow-min.js:627-652 | every VexFlow duration name comes from its MEI duration |
| Converters.NoteDurDotted | javascripts/meitovexflow-min.js:654-673 | the name ends in "d" exactly when @dots is "1", and otherwise is the plain duration |
| Converters.MeiNote2VexDur | javascripts/meitovexflow-min.js:654-673 | `mei_note2vex_dur`; no ensures of its own, `Converters.NoteDurDotted` states that one dot adds "d" to the plain duration |
| Converters.MeiAccid2VexAccid | javascripts/meitovexflow-min.js:675-682 | accepted exactly for the five accidentals, giving a VexFlow accidental |
| Converters.VexAccid2MeiAccid | javascripts/meitovexflow-min.js:676-680 | every VexFlow accidental has an MEI accidental |
| Converters.AccidRoundTrip | javascripts/meitovexflow-min.js:675-682 | reading the VexFlow accidental back gives the MEI one |
| Converters.AccidRoundTripBack | javascripts/meitovexflow-min.js:675-682 | every VexFlow accidental comes from its MEI one |
| Converters.UpperChar | javascripts/meitovexflow-min.js:700 | lower-case letters become upper-case; other characters stay |
| Converters.ToUpper | javascripts/meitovexflow-min.js:700 | `toUpperCase` maps each character in place |
| Converters.KeySpec | javascripts/meitovexflow-min.js:698-717 | no @key.pname gives "C"; an accidental other than "s" or "f" raises |
| Converters.KeySpecReadBack | javascripts/meitovexflow-min.js:698-717 | the key specification names the tonic, the accidental and whether the mode is other than major |
| Converters.Clef | javascripts/meitovexflow-min.js:719-721 | a missing @clef.shape raises |
| Converters.ClefIff | javascripts/meitovexflow-min.js:722-732 | each clef name comes out exactly for its shape and line, with the default line for G and F |
| Converters.ClefNames | javascripts/meitovexflow-min.js:722-732 | only treble, bass, alto and tenor come out |
| Converters.TimeSpec | javascripts/meitovexflow-min.js:742-746 | defined exactly when both meter parts are present |
| Converters.TimeSpecSplits | javascripts/meitovexflow-min.js:742-746 | the count and unit are recovered around the first "/" |
| Converters.CompareKeys | javascripts/meitovexflow-min.js:612-624 | the comparison is -1, 0 or 1 when defined |
| Converters.VexKeyCmpOrder | javascripts/meitovexflow-min.js:608-625 | on keys with a letter and a numeric octave the comparison is the sign of the (octave, letter) order, and antisymmetric |
| Converters.VexKeyCmpExamples | javascripts/meitovexflow-min.js:608-625 | "a/5" is before "c/5", "c/5" after "a/5" and before "c/6"; a key without an octave compares as undefined |
| Converters.VexKeyCmp | javascripts/meitovexflow-min.js:608-625 | the comparison is -1, 0, 1 or undefined; `Converters.VexKeyCmpOrder` states which |
| Converters.MeasurePartOf | javascripts/meitovexflow-min.js:1079-1082 | the text before the first "m", or empty without one |
| Converters.BeatPartOf | javascripts/meitovexflow-min.js:1084-1087 | the text after the first "+", or all of it without one |
| Converters.MeasureBeatParts | javascripts/meitovexflow-min.js:1079-1087 | a measure-beat timestamp splits back into its measure count and beat |
| Converters.BareBeat | javascripts/meitovexflow-min.js:1079-1087 | a bare beat is zero measures ahead and is its own beat part |
| Converters.CountIsMeasuresBeforeSb | javascripts/meitovexflow-min.js:486-494 | the count is the number of measures before the first system break |
| Converters.CountMeasuresTillSb | javascripts/meitovexflow-min.js:486-494 | the count never exceeds the number of siblings; `Converters.CountIsMeasuresBeforeSb` states that it counts the measures before the first system break |
| Staves.Diff | javascripts/meitovexflow-min.js:1592-1605 | clef, key signature and time signature are asked for exactly when one of their attributes differs; the nameless comparison at line 1599 is assumed to report no difference |
| Staves.Look4Changes | javascripts/meitovexflow-min.js:1576-1607 | two missing definitions raise; two present ones give the diff |
| Staves.Look4ChangesIntended | javascripts/meitovexflow-min.js:1576-1607 | the same, with a first definition asking for all three modifiers |
| Staves.Look4ChangesDropsTimesig | javascripts/meitovexflow-min.js:1578-1582 | as written, a first definition asks for no time signature |
| Staves.Look4ChangesIntendedAgrees | javascripts/meitovexflow-min.js:1571-1582 | the intended first-definition answer is a fresh `StaffInfo`'s flags; with a current definition both versions agree |
| Staves.DiffProperties | javascripts/meitovexflow-min.js:1592-1605 | an unchanged definition asks for nothing, and the diff is symmetric |
| Staves.UpdateDef | javascripts/meitovexflow-min.js:1610-1613 | the definition is replaced and the flags become what `look4changes` as written answers for the old and new definitions, which is also the intended answer |
| Staves.UpdateDefOverwrites | javascripts/meitovexflow-min.js:1611 | a pending clef request is lost when an identical definition arrives |
| Staves.StaffKey | javascripts/meitovexflow-min.js:974 | a staff number is accepted exactly when `Number(@n)` is a natural number, and is it |
| Staves.ProcessStaffDef | javascripts/meitovexflow-min.js:973-982 | a new staff gets all flags, a known one the diff; the definition is stored; other staves stay |
| Staves.NewStaffInfo | javascripts/meitovexflow-min.js:1571-1574 | a staff info holds the definition with all three flags; no ensures of its own, `Staves.ProcessStaffDef` and `Staves.Look4ChangesIntendedAgrees` state it |
| Staves.ProcessGrpChildren | javascripts/meitovexflow-min.js:939-948 | the range exists once a child has been read |
| Staves.StaffGrpIsDefs | javascripts/meitovexflow-min.js:936-952 | a group is its staff definitions read in document order; the range runs from the first one's staff to the last one's |
| Staves.GrpChildIsDefs | javascripts/meitovexflow-min.js:962-971 | the same for a group child |
| Staves.GrpChildrenAreDefs | javascripts/meitovexflow-min.js:939-948 | the same for the loop over a group's children |
| Staves.ProcessStaffGrp | javascripts/meitovexflow-min.js:936-952 | `process_staffGrp`; no ensures of its own, `Staves.StaffGrpIsDefs` states that a group is its staff definitions in order with the range from first to last |
| Staves.ProcessGrpChild | javascripts/meitovexflow-min.js:962-971 | `process_staffGrp_child`: a staff definition, a nested group, or an error; no ensures of its own, `Staves.GrpChildIsDefs` states it |
| Staves.ProcessSystemBreak | javascripts/meitovexflow-min.js:911-913 | after a system break the next measure starts a system |
| Staves.AtStartSystem | javascripts/meitovexflow-min.js:551-553 | a new section or a pending system break; no ensures of its own, `Staves.ProcessSystemBreak` and `Staves.StartSystem` state when it holds and what it triggers |
| Staves.RaiseAll | javascripts/meitovexflow-min.js:512-518 | every staff asks for clef and key signature, and for a time signature if told to; definitions stay |
| Staves.StartSystem | javascripts/meitovexflow-min.js:502-537 | a new section forces all three flags on every staff, a system break clef and key signature; both count a system and clear the triggers |
| Staves.InitialiseStaff | javascripts/meitovexflow-min.js:780-807 | a falsy number raises; the clef is shown exactly when requested, and raising happens exactly when a requested clef, or a requested and shown key signature, cannot be read; the modifiers are those of the definition; all flags are cleared |
| Staves.InitialiseStaffShows | javascripts/meitovexflow-min.js:792-807 | the clef, key signature and time signature come in that order; the key signature is there exactly when requested and @key.sig.show is "true" or absent, the time signature exactly when requested and @meter.rend is "norm" or absent |
| Staves.ClefPart | javascripts/meitovexflow-min.js:792-795 | the clef is added exactly when requested, and is the definition's clef |
| Staves.KeyPart | javascripts/meitovexflow-min.js:796-801 | the key signature is added exactly when requested and shown, and is the definition's key |
| Staves.TimePart | javascripts/meitovexflow-min.js:802-807 | the time signature is added exactly when requested and shown, and is the definition's meter |
| Staves.InitialiseStaffOnce | javascripts/meitovexflow-min.js:792-807 | a second stave without a new request shows nothing |
| Staves.FreshStaffShowsAll | javascripts/meitovexflow-min.js:792-807 | a fresh staff shows clef, key signature and time signature in that order |
| Scan.OrOne | javascripts/meitovexflow-min.js:1054-1060 | a missing or empty staff or layer number defaults to "1" |
| Scan.LinkStaffInfo | javascripts/meitovexflow-min.js:1054-1060 | @staff and @layer of a linking element; no ensures of its own, `Scan.OrOne` states the "1" default |
| Scan.StaffDefOf | javascripts/meitovexflow-min.js:1072 | a staff number given as text finds exactly the definition of the staff it names in decimal |
| Scan.FindLayer | javascripts/meitovexflow-min.js:1065-1071 | the first layer with the number; failing that all layers when the first has no number; otherwise "Cannot find layer" |
| Scan.LinkMeter | javascripts/meitovexflow-min.js:1074-1075 | the meter is accepted exactly when both parts are non-zero numbers |
| Scan.LocalTstamp2Id | javascripts/meitovexflow-min.js:1063-1077 | no layer or no staff definition raises; at most one fresh id is used |
| Scan.LocalTstamp2IdAnswer | javascripts/meitovexflow-min.js:1063-1077 | undefined exactly when the layer has no events; otherwise an event's id or the next fresh id |
| Scan.TargetKey | javascripts/meitovexflow-min.js:1127-1129 | a non-numeric measure number gives the "NaN" key |
| Scan.TargetKeyOfIntegers | javascripts/meitovexflow-min.js:1128-1129 | measure n and distance k give the key of measure n+k |
| Scan.TargetKeyNaN | javascripts/meitovexflow-min.js:1127-1129 | a measure number "x" files under "NaN" |
| Scan.StartOf | javascripts/meitovexflow-min.js:1101-1112 | @startid wins; without @startid and @tstamp the start stays empty; only the start changes |
| Scan.StartAtTstamp | javascripts/meitovexflow-min.js:1104-1109 | without @startid the start is what `local_tstamp2id` finds at @tstamp |
| Scan.Ahead | javascripts/meitovexflow-min.js:1121-1122 | the measure part counts only when it is a positive number |
| Scan.EndOf | javascripts/meitovexflow-min.js:1115-1139 | @endid wins; without @endid and @tstamp2 the end stays empty; a table key comes only from @tstamp2 |
| Scan.EndAhead | javascripts/meitovexflow-min.js:1121-1131 | an end in a later measure keeps the beat part as timestamp and yields the key of that measure |
| Scan.EndHere | javascripts/meitovexflow-min.js:1132-1135 | an end in this measure is what `local_tstamp2id` finds at the beat part |
| Scan.NewElementLink | javascripts/meitovexflow-min.js:1092-1098 | a hairpin needs @form and keeps @form and @place; ties and slurs start empty |
| Scan.File | javascripts/meitovexflow-min.js:1130-1131 | the link is appended to its key's entry, created if needed; other entries stay |
| Scan.Push | javascripts/meitovexflow-min.js:1130-1141 | the link is appended to its own list and filed when it has a key; everything else stays |
| Scan.PushValid | javascripts/meitovexflow-min.js:1130-1141 | every filed link is in its list afterwards |
| Scan.DeliverOne | javascripts/meitovexflow-min.js:1031 | one waiting link gets the context |
| Scan.DeliverSetsContext | javascripts/meitovexflow-min.js:1027-1034 | exactly the waiting links get the context; their references and parameters stay |
| Scan.DeliverValid | javascripts/meitovexflow-min.js:1027-1034 | delivering keeps every filed link in its list |
| Scan.VisitLayerDrains | javascripts/meitovexflow-min.js:1018-1037 | visiting a layer gives every link waiting for it that layer and the staff's meter, removes exactly that entry, and changes nothing else |
| Scan.VisitLayerErrors | javascripts/meitovexflow-min.js:1020-1024 | a measure without @n, or a staff without a definition, raises |
| Scan.VisitLayerValid | javascripts/meitovexflow-min.js:1026-1037 | visiting keeps every filed link in its list |
| Scan.VisitLayer | javascripts/meitovexflow-min.js:1018-1037 | the start of `extract_events`; no ensures of its own, `Scan.VisitLayerDrains`, `Scan.VisitLayerErrors` and `Scan.VisitLayerValid` state it |
| Scan.ExtractLinkParts | javascripts/meitovexflow-min.js:1090-1143 | one element is a new link, its start, its end, then a push |
| Scan.ExtractLinkAppends | javascripts/meitovexflow-min.js:1090-1143 | an element adds exactly one link at the end of its own list; the table only grows by that link |
| Scan.ExtractLink | javascripts/meitovexflow-min.js:1089-1143 | one element of `extract_linkingElements`; no ensures of its own, `Scan.ExtractLinkParts` and `Scan.ExtractLinkAppends` state it |
| Scan.ExtractAllAppends | javascripts/meitovexflow-min.js:1089-1143 | the loop adds one link per element, in order, at the end of that kind's list; other lists and the staff table stay, and every filed link stays in its list |
| Scan.ExtractLinkingElementsAppends | javascripts/meitovexflow-min.js:1052-1143 | `extract_linkingElements` adds exactly as many links as the measure holds elements of that name |
| Scan.ExtractLinkingElements | javascripts/meitovexflow-min.js:1052-1143 | no ensures of its own; `Scan.ExtractLinkingElementsAppends` states it |
| Scan.MeasureLinkingElements | javascripts/meitovexflow-min.js:900-902 | ties, then slurs, then hairpins are extracted from a finished measure; no ensures of its own, `Scan.MeasureLinkingElementsAppends` states it |
| Scan.MeasureLinkingElementsAppends | javascripts/meitovexflow-min.js:900-902 | each kind's list gains one link per element of its name in the measure, at its end; the staff table stays, and every filed link stays in its list |
| Scan.EndIdFirst | javascripts/meitovexflow-min.js:1115-1117 | with @endid the link ends there and nothing is filed |
| Scan.StartIdFirst | javascripts/meitovexflow-min.js:1101-1103 | with @startid the link starts there |
| Scan.EndAheadIsFiled | javascripts/meitovexflow-min.js:1119-1131 | "Nm+b" with N > 0 keeps b as the end timestamp and files the link under "(n+N):staff:layer" |
| Scan.EndHereIsResolved | javascripts/meitovexflow-min.js:1132-1135 | with no positive measure part the end is looked up now and nothing is filed |
| Scan.FiledLinkDelivered | javascripts/meitovexflow-min.js:1025-1034 | a link filed under a measure's key gets the context of the layer visited there |
| Scan.WaitingLinkDelivered | javascripts/meitovexflow-min.js:1025-1034 | a link waiting under the visited key gets that layer's context and keeps its end |
| Scan.ForwardReferenceDelivered | javascripts/meitovexflow-min.js:1018-1037 | a "Nm+b" end is handed the layer and meter of measure n+N when that layer is visited, with b still waiting |

## Left out

- Everything VexFlow draws: staves, notes, beams, voices, formatters, ties, hairpins, connectors, the renderer and the canvas. These are calls into a library this model does not include.
- Layout geometry: measure widths, `system_top`, `bottom_most`, `staff_top_abs` and `moveOneMeasure`. This is pixel arithmetic. `startSystem` is modelled without it.
- jQuery, the DOM, and the `Node.prototype`/`Array.prototype` extensions. A node datatype and attribute maps replace them.
- `createPseudoUUID`: random. The ids it returns are a parameter.
- `tstamp2idInContext`: an unfinished function that always raises.
- Annotations, articulations, stem directions, dots and accidentals on VexFlow notes, `alert`, logging, and the re-wrapping of exceptions in `make_note`, `make_rest` and `make_chord`. Only the link-related part of `make_note` is modelled (`TieSlur.NoteLinks`).
- `process_section_child`, `process_scoreDef`, `extract_staves`, `extract_layers`, `process_element` and `make_voice`: dispatch and drawing. Their per-measure order is not modelled as one step. That order is: start a system, initialise each staff and visit each layer, then extract ties, slurs and hairpins. The steps are modelled one by one; the last one, ties then slurs then hairpins, is `Scan.MeasureLinkingElements`.
- `StaveConnector.vexType`: it maps to VexFlow constants. The connector itself is recorded by `Staves.ProcessStaffGrp`.
- IEEE floating point: numbers are exact reals.
- Numbers.ParseNumber: leading or trailing white space, exponents, hexadecimal and "Infinity" are read as NaN.
- Numbers.NatToString: `toString` switches to exponent notation from 1e21 on. The model always writes digits.
- Converters.ToUpper: only ASCII letters are upper-cased.
- Durations.DurationCode: a @dur of "0" or a non-numeric one stops with an error. The source would go on with Infinity or NaN.
- Durations.DurationOf: a beam is measured as the sum of its children, as evidently intended. The source raises; see Findings.
- Temporal.SumInNode: a chord without @dur and without children stops with an error. The source reports an undefined number of beats.
- Temporal.Id2Tstamp: returns the measure index and beat as numbers. Rendering the beat with `toString` is not modelled. `Converters.MeasureBeatString` takes the beat text as given.
- Temporal.Tstamp2IdOn: the fresh id is reported (`Hit.generated`) but not written into the document. The scan state does not carry the document, so a later lookup in the same layer does not see it. `Temporal.Tstamp2IdStable` states what happens once it is written.
- Links.Resolve: a meter with a NaN part stops with `MissingMeter`. The source would search with NaN beats.
- TieSlur.ParseToken: a token's length is counted in characters. JavaScript counts UTF-16 code units, so a letter outside the Basic Multilingual Plane is two units there: the source reads it as a two-unit token, while the model reads it as one character.
- Staves.StaffKey: a staff number that is not a natural number stops with an error. The source accepts any number: a definition with @n="1.5" is filed under `staffInfoArray[1.5]`, and a `<staff n="1.5">` reads it back (lines 974-979, 787, 992, 1024). The model refuses such numbers because MEI staff numbers are natural numbers in practice.
- Staves.ProcessStaffGrp: a group without children stops with an error, where the source raises a TypeError. It carries no ensures of its own; `Staves.StaffGrpIsDefs` states what it does.
- Staves.Diff: `cmp_attr` is also called without an attribute name (line 1599). The model assumes that call reads the same value on both sides and so reports no difference; some jQuery versions raise a TypeError there instead, which the model does not follow. The key signature therefore depends on @key.pname and @key.accid only.
- Scan.TargetKey: a fractional target measure number stops with an error. The source files under a key such as "3.5:1:1", which a measure with @n="3.5" visits (lines 1020, 1025). The model refuses such numbers because MEI measure numbers are integers in practice.
- Scan.VisitLayer: the source sets the drained entry to null. The model removes it, which no later lookup can tell apart.

## Findings

| source | as written | input that shows it | evidently intended | confidence | as-written member | corrected member |
|---|---|---|---|---|---|---|
| javascripts/meitovexflow-min.js:1580-1581 | the first-definition branch of `look4changes` sets `keysig` twice and never sets `timesig` | `look4changes(undefined, staffDef)` gives clef and keysig but no timesig | all three flags, as a fresh `StaffInfo` has | high; not executed. `updateDef` always passes a current definition, so the branch is not reached from there | Staves.Look4Changes, Staves.Look4ChangesDropsTimesig | Staves.Look4ChangesIntended, Staves.Look4ChangesIntendedAgrees |
| javascripts/meitovexflow-min.js:128 | `durationOf_Beam` calls `this.prop`, but inside `.each` `this` is a bare element without `prop`. Line 102 also reads @dur of the outer `evnt`, not of the child | a beam holding one quarter note in 4/4 raises instead of lasting one beat | the sum of the children's durations | high; not executed | Durations.BeamDurationAsWritten, Durations.BeamAsWrittenRaises | Durations.BeamIsSumOfChildren |
