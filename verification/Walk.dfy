/** The reference reading of a section. */
module Walks {
  // One walk that supplies every missing field as it meets it. It lists what it meets in order, and stops
  // where a leaf type's own refusal stops it.

  import opened Options
  import opened Trees
  import opened Schemas
  import opened Reader

  datatype Event =
    | Found(problem: Problem)
    | Fill(supplied: NewPatch)

  /** The entry of a table a walk stopped in, and how many problems stand before it. */
  datatype Section = Section(path: string, start: nat)

  datatype End<+T> =
    | Done(value: T)
    | Stop(recorded: bool, section: Option<Section>)

  datatype Trace<+T> = Trace(events: seq<Event>, end: End<T>)

  /** The problems met as wrong values. */
  function Founds(events: seq<Event>): seq<Problem> {
    if events == [] then [] else FoundOf(events[0]) + Founds(events[1..])
  }

  function FoundOf(e: Event): seq<Problem> {
    if e.Found? then [e.problem] else []
  }

  /** The fields supplied as placeholders. */
  function Fills(events: seq<Event>): seq<NewPatch> {
    if events == [] then [] else FillOf(events[0]) + Fills(events[1..])
  }

  function FillOf(e: Event): seq<NewPatch> {
    if e.Fill? then [e.supplied] else []
  }

  /** Every problem a walk tells of. */
  function Reports(events: seq<Event>): seq<Problem> {
    if events == [] then [] else ReportOf(events[0]) + Reports(events[1..])
  }

  function ReportOf(e: Event): seq<Problem> {
    match e
    case Found(problem) => [problem]
    case Fill(NewPatch(_, missing)) => if missing.Some? then [missing.value] else []
  }

  function AllFound(problems: seq<Problem>): (events: seq<Event>)
    ensures |events| == |problems|
    ensures forall i | 0 <= i < |events| :: events[i] == Found(problems[i])
  {
    seq(|problems|, i requires 0 <= i < |problems| => Found(problems[i]))
  }

  /** A stop no problem tells of yet, told of at the node `t`. */
  function Told<T>(t: Target, path: string, tr: Trace<T>): Trace<T> {
    match tr.end
    case Done(_) => tr
    case Stop(recorded, section) =>
      Trace(
        tr.events + if recorded || Silent(t) then [] else [Found(Problem(path, OriginOf(t), Refused))],
        Stop(true, section))
  }

  /** `tr`, with `events` met before it. */
  function Before<T>(events: seq<Event>, tr: Trace<T>): Trace<T> {
    Trace(
      events + tr.events,
      if tr.end.Stop? && tr.end.section.Some? then
        Stop(tr.end.recorded, Some(Section(tr.end.section.value.path, |Founds(events)| + tr.end.section.value.start)))
      else tr.end)
  }

  /** What an option makes of the walk of its inner type. */
  function Optional(t: Target, path: string, tr: Trace<Decoded>): Trace<Decoded> {
    var told := Told(t, path, tr);
    if told.end.Done? then Trace(told.events, Done(DSome(told.end.value))) else told
  }

  /** The walk of an inner type, seen through a mapping that may refuse its value. */
  function Screened(takes: Decoded -> bool, tr: Trace<Decoded>): Trace<Decoded> {
    if tr.end.Done? && !takes(tr.end.value) then Trace(tr.events, Stop(false, None)) else tr
  }

  /** `skip`: the paths of the entries to leave out, when `t` is itself a table read at `path`. */
  function Walk(s: Schema, t: Target, path: string, skip: set<string>): Trace<Decoded>
    decreases s, Held(t), 5, 0
  {
    match s
    case SOption(inner) =>
      if t.Absent? || t.node.value.Null? then Trace([], Done(DNone)) else Optional(t, path, Walk(inner, t, path, skip))
    case SMapped(inner, takes) => Screened(takes, Walk(inner, t, path, skip))
    case SSeq(_) => WalkSeq(s, t, path)
    case SAny =>
      if t.Absent? then Trace(AllFound(Mismatch(t, path, "a value")), Done(DRaw(Null)))
      else if t.node.value.Array? then WalkSeq(s, t, path)
      else if t.node.value.Table? then WalkTable(s, t, path, skip)
      else Trace([], Done(DRaw(t.node.value)))
    case SMap(_) => WalkTable(s, t, path, skip)
    case SStruct(_) => WalkTable(s, t, path, skip)
    case _ =>
      var r := ReadScalar(s, t, path);
      Trace(AllFound(r.problems), if r.value.Some? then Done(r.value.value) else Stop(true, None))
  }

  function WalkSeq(s: Schema, t: Target, path: string): Trace<Decoded>
    requires s.SSeq? || (s.SAny? && t.At? && t.node.value.Array?)
    decreases s, Held(t), 1, 0
  {
    if t.At? && t.node.value.Array? then Told(t, path, WalkItems(s, t, path, 0, []))
    else Trace(AllFound(Mismatch(t, path, "an array")), Done(DSeq([])))
  }

  function WalkItems(s: Schema, t: Target, path: string, i: nat, got: seq<Decoded>): Trace<Decoded>
    requires s.SSeq? || s.SAny?
    requires t.At? && t.node.value.Array? && i <= |t.node.value.items|
    decreases s, Held(t), 0, |t.node.value.items| - i
  {
    var items := t.node.value.items;
    if i == |items| then Trace([], Done(DSeq(got)))
    else
      var tr := Walk(ElementOf(s), At(items[i]), JoinIndex(path, i), {});
      if tr.end.Stop? then Trace(tr.events, Stop(tr.end.recorded, None))     // names no entry of a table
      else Before(tr.events, WalkItems(s, t, path, i + 1, got + [tr.end.value]))
  }

  /** The value under a key: its stop is told of at the key, and names the entry. */
  function WalkEntry(s: Schema, t: Target, path: string): Trace<Decoded>
    decreases s, Held(t), 6, 0
  {
    var tr := Told(t, path, Walk(s, t, path, {}));
    if tr.end.Stop? then Trace(tr.events, Stop(true, Some(Section(path, 0)))) else tr
  }

  /** A field no entry supplied: it is told of as missing, and its placeholder is read. */
  function WalkSupplied(f: Field, t: Target, path: string): Trace<Decoded>
    decreases f.schema, Node(Null, Default), 7, 0
  {
    Before([Fill(NewPatch(Patch(path, f.name), MissingProblem(t, path, f.name)))],
           WalkEntry(f.schema, Absent(true, OriginOf(t)), JoinKey(path, f.name)))
  }

  /** A table's walk that ended in one of its entries. */
  function Halted(tr: Trace<Decoded>): Trace<map<string, Decoded>>
    requires tr.end.Stop?
  {
    Trace(tr.events, Stop(true, tr.end.section))
  }

  function WalkEntries(s: Schema, t: Target, path: string, skip: set<string>, i: nat, got: map<string, Decoded>)
    : Trace<map<string, Decoded>>
    requires IsTable(s) && i <= |EntriesOf(t)|
    decreases s, Held(t), 3, |EntriesOf(t)| - i
  {
    var entries := EntriesOf(t);
    if i == |entries| then
      Trace([], Done(got))
    else
      var key := entries[i].key;
      if JoinKey(path, key) in skip || !Reads(s, key) then
        WalkEntries(s, t, path, skip, i + 1, got)
      else if Taken(s, key, got) then
        Trace([], Stop(false, None))
      else
        var tr := WalkEntry(Under(s, key), At(entries[i].node), JoinKey(path, key));
        if tr.end.Stop? then Halted(tr)
        else Before(tr.events, WalkEntries(s, t, path, skip, i + 1, got[key := tr.end.value]))
  }

  /** The fields from place `j` on that no entry supplied, each supplied as a placeholder. */
  function WalkGaps(s: Schema, t: Target, path: string, j: nat, got: map<string, Decoded>): Trace<map<string, Decoded>>
    requires IsTable(s) && j <= |FieldsOf(s)|
    decreases s, Held(t), 3, |FieldsOf(s)| - j
  {
    var fields := FieldsOf(s);
    if j == |fields| then
      Trace([], Done(got))
    else if fields[j].name in got || GivenFor(fields[j]).Value? then
      WalkGaps(s, t, path, j + 1, got)
    else if GivenFor(fields[j]).Unacceptable? then
      Trace([], Stop(false, None))
    else if HasKey(EntriesOf(t), fields[j].name) then
      Trace([], Stop(true, None))        // a section left out, and the struct has no value for it
    else
      var tr := WalkSupplied(fields[j], t, path);
      if tr.end.Stop? then Halted(tr)
      else Before(tr.events, WalkGaps(s, t, path, j + 1, got[fields[j].name := tr.end.value]))
  }

  function WalkRest(s: Schema, t: Target, path: string,
      entries: Trace<map<string, Decoded>>): Trace<map<string, Decoded>>
    requires IsTable(s)
    decreases s, Held(t), 3, |FieldsOf(s)| + 1
  {
    if entries.end.Stop? then entries else Before(entries.events, WalkGaps(s, t, path, 0, entries.end.value))
  }

  /** The walk of a table's content as the walk of the table: its own refusals are told of here. */
  function Sealed(s: Schema, t: Target, path: string, tr: Trace<map<string, Decoded>>): Trace<Decoded> {
    var told := Told(t, path, tr);
    Trace(told.events,
      if told.end.Done? then Done(DTable(Completed(FieldsOf(s), told.end.value))) else Stop(true, told.end.section))
  }

  function WalkTable(s: Schema, t: Target, path: string, skip: set<string>): Trace<Decoded>
    requires IsTable(s)
    decreases s, Held(t), 4, 0
  {
    Sealed(s, t, path,
      Before(AllFound(NotATable(t, path)), WalkRest(s, t, path, WalkEntries(s, t, path, skip, 0, map[]))))
  }
}
