/** The proof that a pass given the first fields a walk supplies is that walk cut short, kind by kind. */
module Passes {
  import opened Options
  import opened Trees
  import opened Schemas
  import opened Reader
  import opened Walks
  import opened Events
  import opened CleanReads
  import opened Simulation

  // ---- Putting parts together ----

  lemma SealedBefore(s: Schema, t: Target, path: string, events: seq<Event>, tr: Trace<map<string, Decoded>>)
    ensures Sealed(s, t, path, Before(events, tr)) == Before(events, Sealed(s, t, path, tr))
  {
    if tr.end.Stop? {
      var told := if tr.end.recorded || Silent(t) then [] else [Found(Problem(path, OriginOf(t), Refused))];
      assert events + tr.events + told == events + (tr.events + told);
    }
  }

  lemma SealedFills(s: Schema, t: Target, path: string, tr: Trace<map<string, Decoded>>)
    ensures Fills(Sealed(s, t, path, tr).events) == Fills(tr.events)
  {
    ToldFills(t, path, tr);
  }

  /** Recording an error and telling of a stop are the same. */
  lemma MatchesTold(cx: Plan, t: Target, path: string, tr: Trace<Decoded>, m: nat, before: Log,
      out: (Log, Result<Decoded>))
    requires Matches(cx, path, tr, m, before, out)
    ensures Matches(cx, path, Told(t, path, tr), m, before, RecordError(t, path, out.1, out.0))
  {
    hide Fills, Founds;
    ToldFills(t, path, tr);
    if tr.end.Stop? && m >= |Fills(tr.events)| {
      var problem := Problem(path, OriginOf(t), Refused);
      FoundsAppend(tr.events, [Found(problem)]);
      OneFound(problem);
      assert tr.events + [] == tr.events;
      assert before.problems + (Founds(tr.events) + [problem]) == before.problems + Founds(tr.events) + [problem];
    }
  }

  lemma OneFound(problem: Problem)
    ensures Founds([Found(problem)]) == [problem]
  {
    assert [Found(problem)][1..] == [];
  }

  lemma MatchesOk(cx: Plan, path: string, tr: Trace<Decoded>, m: nat, before: Log, out: (Log, Result<Decoded>))
    requires Matches(cx, path, tr, m, before, out) && out.1.Ok?
    ensures m >= |Fills(tr.events)| && tr.end == Done(out.1.value) && out.0.patch == before.patch
  {
  }

  /** One part of a table, then the rest of it. */
  function Chained(tr: Trace<Decoded>, rest: Trace<map<string, Decoded>>): Trace<map<string, Decoded>> {
    if tr.end.Stop? then Halted(tr) else Before(tr.events, rest)
  }

  /** A table whose next part agrees and whose rest agrees, agrees. */
  lemma StepMatches(cx: Plan, s: Schema, t: Target, path: string, tr: Trace<Decoded>, rest: Trace<map<string, Decoded>>,
                    m: nat, log: Log, part: (Log, Result<Decoded>), out: (Log, Result<Decoded>))
    requires tr.end.Stop? ==> tr.end.recorded
    requires m <= |Fills(Chained(tr, rest).events)|
    requires Matches(cx, path, tr, Least(m, |Fills(tr.events)|), log, part)
    requires part.1.Err? ==> out == TableResult(cx, t, path, Err(part.1.error), part.0)
    requires part.1.Ok? ==> m >= |Fills(tr.events)| && log.patch == part.0.patch &&
                            Matches(cx, path, Sealed(s, t, path, rest), m - |Fills(tr.events)|, part.0, out)
    ensures Matches(cx, path, Sealed(s, t, path, Chained(tr, rest)), m, log, out)
  {
    hide Fills, Founds, Before, Sealed, TableResult;
    var whole := Chained(tr, rest);
    SealedFills(s, t, path, whole);
    if tr.end.Stop? {
      StopMatches(cx, s, t, path, tr, m, log, part, out);
    } else {
      BeforeFills(tr.events, rest);
      SealedBefore(s, t, path, tr.events, rest);
      if part.1.Ok? {
        MatchesBefore(cx, path, tr.events, Sealed(s, t, path, rest), m, log, part.0, out);
      } else {
        assert out == TableResult(cx, t, path, Err(part.1.error), part.0);
        RecordedEnd(cx, t, path, part);
      }
    }
  }

  /** A recorded error passes the end of a table unchanged. */
  lemma RecordedEnd(cx: Plan, t: Target, path: string, part: (Log, Result<Decoded>))
    requires part.1.Err? && part.1.error.recorded
    ensures TableResult(cx, t, path, Err(part.1.error), part.0) == (part.0, Err(part.1.error))
  {
  }

  lemma StopMatches(cx: Plan, s: Schema, t: Target, path: string, tr: Trace<Decoded>, m: nat, log: Log,
      part: (Log, Result<Decoded>),
                    out: (Log, Result<Decoded>))
    requires tr.end.Stop? && tr.end.recorded && m <= |Fills(tr.events)|
    requires Matches(cx, path, tr, m, log, part)
    requires part.1.Err? ==> out == TableResult(cx, t, path, Err(part.1.error), part.0)
    ensures Matches(cx, path, Sealed(s, t, path, Halted(tr)), m, log, out)
  {
    hide Fills, Founds, TableResult;
    assert tr.events + [] == tr.events;
    RecordedEnd(cx, t, path, part);
  }

  // ---- Entries ----

  /** A read beneath the root table: the sections set aside are none of its business. */
  lemma {:induction false} SimBelow(cx: Plan, s: Schema, t: Target, path: string, log: Log, m: nat)
    requires UniqueRead(s, t) && log.patch.None?
    requires Apart(Places(s, t, path, {})) && cx.root !in Places(s, t, path, {})
    requires m <= |Fills(Walk(s, t, path, {}).events)|
    requires Aligned(cx.patches, Places(s, t, path, {}), Fills(Walk(s, t, path, {}).events)[..m])
    ensures Matches(cx, path, Walk(s, t, path, {}), m, log, Read(cx, s, t, path, log))
    ensures path == cx.root && Walk(s, t, path, {}).end.Stop? ==> Walk(s, t, path, {}).end.section.None?
    decreases s, Held(t), 5, 2
  {
    hide Walk, Read, UniqueRead, Places, Apart, Aligned, Fills, Matches;
    if path == cx.root {
      SkipFree(s, t, path, cx.skipped);
      NoSection(s, t, path, {});
    }
    SimRead(cx, s, t, path, log, m);
  }

  /** A section that fails at the root is noted, with the problems before it. */
  lemma NextMatches(cx: Plan, base: string, path: string, told: Trace<Decoded>, m: nat, log: Log,
      out: (Log, Result<Decoded>))
    requires Matches(cx, path, told, m, log, out) && log.patch.None? && (told.end.Stop? ==> told.end.recorded)
    requires path == cx.root && told.end.Stop? ==> told.end.section.None?
    ensures Matches(cx, base,
            if told.end.Stop? then Trace(told.events, Stop(true, Some(Section(path, 0)))) else told, m, log,
                    if out.1.Err? && base == cx.root && out.0.patch.None? && path !in cx.skipped
                    then (out.0.(failed := Some(Failed(path, |log.problems|))), out.1) else out)
  {
    hide Fills, Founds;
  }

  lemma {:induction false} SimNext(cx: Plan, s: Schema, t: Target, base: string, path: string, log: Log, m: nat)
    requires UniqueRead(s, t) && log.patch.None?
    requires Apart(Places(s, t, path, {})) && cx.root !in Places(s, t, path, {})
    requires m <= |Fills(WalkEntry(s, t, path).events)|
    requires Aligned(cx.patches, Places(s, t, path, {}), Fills(WalkEntry(s, t, path).events)[..m])
    ensures Matches(cx, base, WalkEntry(s, t, path), m, log, NextValue(cx, s, t, base, path, log))
    decreases s, Held(t), 6, 0
  {
    hide Walk, Read, UniqueRead, Places, Apart, Aligned, Matches, Fills;
    var tr := Walk(s, t, path, {});
    var (log1, r) := Read(cx, s, t, path, log);
    ToldFills(t, path, tr);
    SimBelow(cx, s, t, path, log, m);
    MatchesTold(cx, t, path, tr, m, log, (log1, r));
    NextMatches(cx, base, path, Told(t, path, tr), m, log, RecordError(t, path, r, log1));
  }

  // ---- Gaps ----

  /** What is left of a table's read once its entries are read: placeholders, then the derive. */
  function ReadLast(cx: Plan, s: Schema, t: Target, path: string, extras: seq<string>, e: nat,
      got: map<string, Decoded>, log: Log)
    : (Log, Result<Decoded>)
    requires IsTable(s) && e <= |extras| && (s.SAny? ==> t.At? && t.node.value.Table?)
  {
    var (log3, r3) := ReadExtras(cx, s, t, path, extras, e, got, log);
    TableResult(cx, t, path, if r3.Err? then Err(r3.error) else Closed(s, r3.value), log3)
  }

  predicate IsGap(f: Field, got: map<string, Decoded>) {
    f.name !in got && !GivenFor(f).Value?
  }

  /** A table whose read is past its entries. */
  ghost predicate PastEntries(cx: Plan, s: Schema, t: Target, path: string, e: nat, got: map<string, Decoded>,
      log: Log) {
    && IsTable(s) && (s.SAny? ==> t.At? && t.node.value.Table?) && UniqueTable(s, t)
    && SkipsSupplied(cx, t, path) && log.patch.None?
    && (forall f | f !in got && HasKey(EntriesOf(t), f) && Reads(s, f) :: SetAside(cx, path, f))
    && e <= |Own(cx.patches, path)| && (forall i | 0 <= i < e :: Own(cx.patches, path)[i] in got)
  }

  /** ... and past its fields before `j`. */
  ghost predicate AtGap(cx: Plan, s: Schema, t: Target, path: string, j: nat, e: nat, got: map<string, Decoded>,
      log: Log, m: nat) {
    && PastEntries(cx, s, t, path, e, got, log)
    && j <= |FieldsOf(s)| && FirstGap(FieldsOf(s), got, 0) == FirstGap(FieldsOf(s), got, j)
    && Room(cx, path, FieldPlaces(s, t, path, j))
    && m <= |Fills(WalkGaps(s, t, path, j, got).events)|
    && AlignedFrom(cx.patches, path, FieldPlaces(s, t, path, j), e, Fills(WalkGaps(s, t, path, j, got).events)[..m])
  }

  lemma {:induction false} SimLast(cx: Plan, s: Schema, t: Target, path: string, j: nat, e: nat,
      got: map<string, Decoded>, log: Log, m: nat)
    requires AtGap(cx, s, t, path, j, e, got, log, m)
    ensures Matches(cx, path, Sealed(s, t, path, WalkGaps(s, t, path, j, got)), m, log,
                    ReadLast(cx, s, t, path, Own(cx.patches, path), e, got, log))
    decreases s, Held(t), 3, |FieldsOf(s)| - j, 1
  {
    hide Walk, Read, WalkSupplied, NextValue, UniqueRead, UniqueTable, Own, Sealed, Matches, SkipsSupplied, ReadLast,
      AlignedFrom, Room, FieldPlace, Fills;
    var fields := FieldsOf(s);
    if j == |fields| || (IsGap(fields[j], got) &&
      (GivenFor(fields[j]).Unacceptable? || HasKey(EntriesOf(t), fields[j].name))) {
      SimOwnEnd(cx, s, t, path, j, e, got, log, m);
    } else if !IsGap(fields[j], got) {
      var here, there := FieldPlace(s, t, path, j), FieldPlaces(s, t, path, j + 1);
      RoomParts(cx, path, here, there);
      FewerAligned(cx.patches, path, here, there, e, Fills(WalkGaps(s, t, path, j, got).events)[..m]);
      SimLast(cx, s, t, path, j + 1, e, got, log, m);
    } else if m == 0 {
      SimAsk(cx, s, t, path, j, e, got, log);
    } else {
      SimGap(cx, s, t, path, j, e, got, log, m);
    }
  }

  lemma NoMoreExtras(patches: seq<Patch>, path: string, places: seq<string>, e: nat)
    requires AlignedFrom(patches, path, places, e, [])
    ensures e == |Own(patches, path)|
  {
    assert Own(PatchesOf([]), path) == [];
  }

  /** The derive's end: a value, its own refusal, or a section set aside that it cannot go on without. */
  lemma SimOwnEnd(cx: Plan, s: Schema, t: Target, path: string, j: nat, e: nat, got: map<string, Decoded>, log: Log,
      m: nat)
    requires AtGap(cx, s, t, path, j, e, got, log, m)
    requires j == |FieldsOf(s)| ||
             (IsGap(FieldsOf(s)[j], got) &&
              (GivenFor(FieldsOf(s)[j]).Unacceptable? || HasKey(EntriesOf(t), FieldsOf(s)[j].name)))
    ensures Matches(cx, path, Sealed(s, t, path, WalkGaps(s, t, path, j, got)), m, log,
                    ReadLast(cx, s, t, path, Own(cx.patches, path), e, got, log))
  {
    hide Walk, Read, WalkSupplied, NextValue, UniqueRead, UniqueTable, Own, AlignedFrom, Room, FieldPlaces,
      SkipsSupplied, Sealed, TableResult, Closed;
    var tr := WalkGaps(s, t, path, j, got);
    NoEvents();
    assert Fills(tr.events)[..m] == [];
    NoMoreExtras(cx.patches, path, FieldPlaces(s, t, path, j), e);
    assert FirstGap(FieldsOf(s), got, 0) == j;
    if j < |FieldsOf(s)| {
      UniqueField(s, t, j);
      assert Reads(s, FieldsOf(s)[j].name);
    }
    OwnEndMatches(cx, s, t, path, j, got, log);
  }

  lemma OwnEndMatches(cx: Plan, s: Schema, t: Target, path: string, j: nat, got: map<string, Decoded>, log: Log)
    requires IsTable(s) && j <= |FieldsOf(s)| && FirstGap(FieldsOf(s), got, 0) == j
    requires j < |FieldsOf(s)| ==> IsGap(FieldsOf(s)[j], got)
    requires j < |FieldsOf(s)| && !GivenFor(FieldsOf(s)[j]).Unacceptable? ==>
               HasKey(EntriesOf(t), FieldsOf(s)[j].name) && SetAside(cx, path, FieldsOf(s)[j].name)
    ensures Matches(cx, path, Sealed(s, t, path, WalkGaps(s, t, path, j, got)), 0, log,
            TableResult(cx, t, path, Closed(s, got), log))
  {
    hide WalkSupplied, Completed, HasKey;
    var told := Told(t, path, WalkGaps(s, t, path, j, got));
    NoEvents();
    assert [] + [Found(Problem(path, OriginOf(t), Refused))] == [Found(Problem(path, OriginOf(t), Refused))];
    assert told.events == [] || (told.events == [Found(Problem(path, OriginOf(t), Refused))] && told.events[1..] == []);
    assert log.problems + [] == log.problems;
  }

  /** The first field no patch supplies is the one asked for. */
  lemma SimAsk(cx: Plan, s: Schema, t: Target, path: string, j: nat, e: nat, got: map<string, Decoded>, log: Log)
    requires AtGap(cx, s, t, path, j, e, got, log, 0) && j < |FieldsOf(s)|
    requires IsGap(FieldsOf(s)[j], got) && GivenFor(FieldsOf(s)[j]).Required? &&
             !HasKey(EntriesOf(t), FieldsOf(s)[j].name)
    ensures Matches(cx, path, Sealed(s, t, path, WalkGaps(s, t, path, j, got)), 0, log,
                    ReadLast(cx, s, t, path, Own(cx.patches, path), e, got, log))
  {
    hide Walk, Read, WalkSupplied, NextValue, UniqueRead, UniqueTable, Own, AlignedFrom, Room, FieldPlaces;
    var tr := WalkGaps(s, t, path, j, got);
    assert Fills(tr.events)[..0] == [];
    NoMoreExtras(cx.patches, path, FieldPlaces(s, t, path, j), e);
    assert FirstGap(FieldsOf(s), got, 0) == j;
    assert !SetAside(cx, path, FieldsOf(s)[j].name);
    SealedFills(s, t, path, tr);
    AskedFirst(s, t, path, j, got);
  }

  lemma AskedFirst(s: Schema, t: Target, path: string, j: nat, got: map<string, Decoded>)
    requires IsTable(s) && UniqueTable(s, t) && j < |FieldsOf(s)|
    requires IsGap(FieldsOf(s)[j], got) && GivenFor(FieldsOf(s)[j]).Required? &&
             !HasKey(EntriesOf(t), FieldsOf(s)[j].name)
    ensures var f := FieldsOf(s)[j];
            var fills := Fills(WalkGaps(s, t, path, j, got).events);
            fills != [] && fills[0] == NewPatch(Patch(path, f.name), MissingProblem(t, path, f.name))
  {
    hide WalkSupplied, UniqueTable;
    var tr := WalkSupplied(FieldsOf(s)[j], t, path);
    SuppliedFills(FieldsOf(s)[j], t, path);
    if tr.end.Done? {
      BeforeFills(tr.events, WalkGaps(s, t, path, j + 1, got[FieldsOf(s)[j].name := tr.end.value]));
    }
  }

  /** A field a patch supplies: its placeholder is read, then the rest. */
  lemma {:induction false} SimGap(cx: Plan, s: Schema, t: Target, path: string, j: nat, e: nat,
      got: map<string, Decoded>, log: Log, m: nat)
    requires AtGap(cx, s, t, path, j, e, got, log, m) && j < |FieldsOf(s)| && m >= 1
    requires IsGap(FieldsOf(s)[j], got) && GivenFor(FieldsOf(s)[j]).Required? &&
             !HasKey(EntriesOf(t), FieldsOf(s)[j].name)
    ensures Matches(cx, path, Sealed(s, t, path, WalkGaps(s, t, path, j, got)), m, log,
                    ReadLast(cx, s, t, path, Own(cx.patches, path), e, got, log))
    decreases s, Held(t), 3, |FieldsOf(s)| - j, 0
  {
    hide Walk, Read, WalkSupplied, WalkEntry, WalkGaps, NextValue, UniqueRead, UniqueTable, Own, AlignedFrom, Aligned,
      Matches, Sealed, FirstGap, Fills, ReadLast, Chained, GapRest, SkipsSupplied, HasKey, Completed, Room,
        FieldPlaces, Places, AllAt;
    var f, own := FieldsOf(s)[j], Own(cx.patches, path);
    var name := f.name;
    var tr := WalkSupplied(f, t, path);
    var rest := GapRest(s, t, path, j, got);
    var part := NextValue(cx, f.schema, Absent(true, OriginOf(t)), path, JoinKey(path, name), log);
    var out := ReadLast(cx, s, t, path, own, e, got, log);
    GapSteps(cx, s, t, path, j, e, got, log, m);
    UniqueField(s, t, j);
    SimSupplied(cx, s, t, path, j, e, got, log, rest, FieldPlaces(s, t, path, j + 1), m);
    LastStep(cx, s, t, path, j, own, e, got, log);
    if part.1.Ok? {
      MatchesOk(cx, path, tr, Least(m, |Fills(tr.events)|), log, part);
      GapMoves(cx, s, t, path, j, e, got, log, m, part);
      SimLast(cx, s, t, path, j + 1, e + 1, got[name := part.1.value], part.0, m - |Fills(tr.events)|);
    }
    StepMatches(cx, s, t, path, tr, rest, m, log, part, out);
  }

  function GapRest(s: Schema, t: Target, path: string, j: nat, got: map<string, Decoded>): Trace<map<string, Decoded>>
    requires IsTable(s) && j < |FieldsOf(s)|
  {
    var tr := WalkSupplied(FieldsOf(s)[j], t, path);
    if tr.end.Stop? then Trace([], Stop(true, None))
    else WalkGaps(s, t, path, j + 1, got[FieldsOf(s)[j].name := tr.end.value])
  }

  /** The walk of a required field, then of the rest. */
  lemma GapSteps(cx: Plan, s: Schema, t: Target, path: string, j: nat, e: nat, got: map<string, Decoded>, log: Log,
      m: nat)
    requires AtGap(cx, s, t, path, j, e, got, log, m) && j < |FieldsOf(s)|
    requires IsGap(FieldsOf(s)[j], got) && GivenFor(FieldsOf(s)[j]).Required? &&
             !HasKey(EntriesOf(t), FieldsOf(s)[j].name)
    ensures var tr := WalkSupplied(FieldsOf(s)[j], t, path);
            var rest := GapRest(s, t, path, j, got);
            && WalkGaps(s, t, path, j, got) == Chained(tr, rest)
            && Fills(Chained(tr, rest).events) == Fills(tr.events) + Fills(rest.events)
            && AllAt(Fills(rest.events), [path] + FieldPlaces(s, t, path, j + 1))
            && PastEntries(cx, s, t, path, e, got, log) && FieldsOf(s)[j].name !in got
            && Room(cx, path, FieldPlace(s, t, path, j) + FieldPlaces(s, t, path, j + 1))
            && FieldPlace(s, t, path, j) ==
              Places(FieldsOf(s)[j].schema, Absent(true, OriginOf(t)), JoinKey(path, FieldsOf(s)[j].name), {})
            && m <= |Fills(tr.events)| + |Fills(rest.events)|
            && AlignedFrom(cx.patches, path, FieldPlace(s, t, path, j) + FieldPlaces(s, t, path, j + 1), e,
                           (Fills(tr.events) + Fills(rest.events))[..m])
  {
    hide WalkSupplied, UniqueTable, UniqueRead, AlignedFrom, PastEntries, Fills, Founds, Room, Places;
    var tr := WalkSupplied(FieldsOf(s)[j], t, path);
    NoEvents();
    if tr.end.Done? {
      GapsFills(s, t, path, j + 1, got[FieldsOf(s)[j].name := tr.end.value]);
    }
    ChainedFills(tr, GapRest(s, t, path, j, got));
  }

  /** The read of a placeholder, then of the rest. */
  lemma LastStep(cx: Plan, s: Schema, t: Target, path: string, j: nat, extras: seq<string>, e: nat,
      got: map<string, Decoded>, log: Log)
    requires s.SStruct? && j < |FieldsOf(s)| && e < |extras| && extras[e] == FieldsOf(s)[j].name
    requires FindField(FieldsOf(s), extras[e]) == j && extras[e] !in got
    ensures var f := FieldsOf(s)[j];
            var part := NextValue(cx, f.schema, Absent(true, OriginOf(t)), path, JoinKey(path, f.name), log);
            ReadLast(cx, s, t, path, extras, e, got, log) ==
            if part.1.Err? then TableResult(cx, t, path, Err(part.1.error), part.0)
            else ReadLast(cx, s, t, path, extras, e + 1, got[f.name := part.1.value], part.0)
  {
    hide NextValue, TableResult, Closed;
  }

  /** With the field supplied, the table's read stands at the next field. */
  lemma GapMoves(cx: Plan, s: Schema, t: Target, path: string, j: nat, e: nat, got: map<string, Decoded>, log: Log,
      m: nat, part: (Log, Result<Decoded>))
    requires AtGap(cx, s, t, path, j, e, got, log, m) && j < |FieldsOf(s)|
    requires IsGap(FieldsOf(s)[j], got)
    requires e < |Own(cx.patches, path)| && Own(cx.patches, path)[e] == FieldsOf(s)[j].name
    requires var tr := WalkSupplied(FieldsOf(s)[j], t, path);
             var rest := GapRest(s, t, path, j, got);
             && part.1.Ok? && tr.end == Done(part.1.value) && part.0.patch == log.patch
             && |Fills(tr.events)| <= m <= |Fills(tr.events)| + |Fills(rest.events)|
             && Room(cx, path, FieldPlaces(s, t, path, j + 1))
             && AlignedFrom(cx.patches, path, FieldPlaces(s, t, path, j + 1), e + 1,
               Fills(rest.events)[..m - |Fills(tr.events)|])
    ensures AtGap(cx, s, t, path, j + 1, e + 1, got[FieldsOf(s)[j].name := part.1.value], part.0,
                  m - |Fills(WalkSupplied(FieldsOf(s)[j], t, path).events)|)
    ensures GapRest(s, t, path, j, got) == WalkGaps(s, t, path, j + 1, got[FieldsOf(s)[j].name := part.1.value])
  {
    hide WalkSupplied, WalkGaps, UniqueTable, AlignedFrom, Fills, Own, FirstGap, SkipsSupplied, HasKey, Room,
      FieldPlaces;
    var name := FieldsOf(s)[j].name;
    GapStays(FieldsOf(s), got, name, part.1.value, j);
  }

  /** The placeholder agrees, and what is left for the rest of the table is aligned. */
  lemma {:induction false} SimSupplied(cx: Plan, s: Schema, t: Target, path: string, j: nat, e: nat,
      got: map<string, Decoded>, log: Log,
                                       rest: Trace<map<string, Decoded>>, there: seq<string>, m: nat)
    requires PastEntries(cx, s, t, path, e, got, log) && j < |FieldsOf(s)| && m >= 1
    requires var f := FieldsOf(s)[j];
             var here := Places(f.schema, Absent(true, OriginOf(t)), JoinKey(path, f.name), {});
             var tr := WalkSupplied(f, t, path);
             && Room(cx, path, here + there) && AllAt(Fills(rest.events), [path] + there)
             && m <= |Fills(tr.events)| + |Fills(rest.events)|
             && AlignedFrom(cx.patches, path, here + there, e, (Fills(tr.events) + Fills(rest.events))[..m])
    ensures e < |Own(cx.patches, path)| && Own(cx.patches, path)[e] == FieldsOf(s)[j].name
    ensures var f := FieldsOf(s)[j];
            var tr := WalkSupplied(f, t, path);
            var part := NextValue(cx, f.schema, Absent(true, OriginOf(t)), path, JoinKey(path, f.name), log);
            && Matches(cx, path, tr, Least(m, |Fills(tr.events)|), log, part)
            && (tr.end.Stop? ==> tr.end.recorded)
            && Room(cx, path, there)
            && (m >= |Fills(tr.events)| ==>
                  AlignedFrom(cx.patches, path, there, e + 1, Fills(rest.events)[..m - |Fills(tr.events)|]))
    decreases s, Held(t), 2, 0
  {
    hide Walk, Read, NextValue, UniqueRead, UniqueTable, Own, AlignedFrom, Aligned, Fills, Matches, HasKey,
      SkipsSupplied,
      Places, Apart, AllAt, Extras, PastEntries;
    PastIsUnique(cx, s, t, path, e, got, log);
    var f := FieldsOf(s)[j];
    var below, absent := JoinKey(path, f.name), Absent(true, OriginOf(t));
    var here := Places(f.schema, absent, below, {});
    var tr := WalkSupplied(f, t, path);
    var child, after := Fills(WalkEntry(f.schema, absent, below).events), Fills(rest.events);
    var fill := NewPatch(Patch(path, f.name), MissingProblem(t, path, f.name));
    SuppliedFills(f, t, path);
    UniqueField(s, t, j);
    RoomParts(cx, path, here, there);
    SplitSupplied(cx, path, here, there, e, fill, child, after, m);
    SimNext(cx, f.schema, absent, path, below, log, Least(m - 1, |child|));
    SuppliedMatches(cx, path, f, t, Least(m, |child| + 1), log, NextValue(cx, f.schema, absent, path, below, log));
  }

  /** The patches of a supplied field: its own, those of its placeholder, and those of the rest. */
  lemma SplitSupplied(cx: Plan, path: string, here: seq<string>, there: seq<string>, e: nat, fill: NewPatch,
                      child: seq<NewPatch>, after: seq<NewPatch>, m: nat)
    requires Room(cx, path, here + there) && fill.patch.parent == path && AllAt(child, here) &&
             AllAt(after, [path] + there)
    requires 1 <= m <= 1 + |child| + |after|
    requires AlignedFrom(cx.patches, path, here + there, e, ([fill] + child + after)[..m])
    ensures e < |Own(cx.patches, path)| && Own(cx.patches, path)[e] == fill.patch.field
    ensures Aligned(cx.patches, here, child[..Least(m - 1, |child|)])
    ensures m - 1 >= |child| ==> AlignedFrom(cx.patches, path, there, e + 1, after[..m - 1 - |child|])
  {
    hide Apart, Own, AlignedFrom, Aligned, AllAt;
    RoomIsApart(cx, path, here + there);
    ApartParts([path], here + there);
    assert path in [path];
    assert [fill] + child + after == [fill] + (child + after);
    SplitOwn(cx.patches, path, here + there, e, fill, child + after, m);
    SplitKey(cx.patches, path, here, there, e + 1, child, after, m - 1);
  }

  lemma PastIsUnique(cx: Plan, s: Schema, t: Target, path: string, e: nat, got: map<string, Decoded>, log: Log)
    requires PastEntries(cx, s, t, path, e, got, log)
    ensures IsTable(s) && UniqueTable(s, t) && log.patch.None?
  {
  }

  lemma ChainedFills(tr: Trace<Decoded>, rest: Trace<map<string, Decoded>>)
    requires tr.end.Stop? ==> rest.events == []
    ensures Fills(Chained(tr, rest).events) == Fills(tr.events) + Fills(rest.events)
  {
    if tr.end.Done? {
      BeforeFills(tr.events, rest);
    } else {
      NoEvents();
    }
  }

  /** Telling of the field before its placeholder shifts the fills by one. */
  lemma SuppliedMatches(cx: Plan, path: string, f: Field, t: Target, m: nat, log: Log, part: (Log, Result<Decoded>))
    requires m >= 1
    requires Matches(cx, path, WalkEntry(f.schema, Absent(true, OriginOf(t)), JoinKey(path, f.name)), m - 1, log, part)
    ensures Matches(cx, path, WalkSupplied(f, t, path), m, log, part)
  {
    hide WalkEntry, Matches;
    var tr := WalkEntry(f.schema, Absent(true, OriginOf(t)), JoinKey(path, f.name));
    OwnFill(path, f.name, t);
    FilledMatches(cx, path, NewPatch(Patch(path, f.name), MissingProblem(t, path, f.name)), tr, m, log, part);
  }

  lemma FilledMatches(cx: Plan, path: string, fill: NewPatch, tr: Trace<Decoded>, m: nat, log: Log,
      part: (Log, Result<Decoded>))
    requires m >= 1 && Matches(cx, path, tr, m - 1, log, part)
    requires Fills([Fill(fill)]) == [fill] && Founds([Fill(fill)]) == []
    ensures Matches(cx, path, Before([Fill(fill)], tr), m, log, part)
  {
    hide Fills, Founds;
    BeforeFills([Fill(fill)], tr);
    FoundsAppend([Fill(fill)], tr.events);
    assert [] + Founds(tr.events) == Founds(tr.events);
    assert ([fill] + Fills(tr.events))[1..] == Fills(tr.events);
  }

  /** Supplying the first gap moves the search past it. */
  lemma GapStays(fields: seq<Field>, got: map<string, Decoded>, name: string, value: Decoded, j: nat)
    requires j < |fields| && fields[j].name == name && IsGap(fields[j], got)
    requires FirstGap(fields, got, 0) == FirstGap(fields, got, j)
    ensures FirstGap(fields, got[name := value], 0) == FirstGap(fields, got[name := value], j + 1)
  {
    GapBefore(fields, got, 0, j);
    GapPast(fields, got[name := value], 0, j + 1);
  }

  lemma {:induction false} GapBefore(fields: seq<Field>, got: map<string, Decoded>, i: nat, j: nat)
    requires i <= j < |fields| && FirstGap(fields, got, i) == j
    ensures forall k | i <= k < j :: !IsGap(fields[k], got)
    decreases j - i
  {
    if i < j {
      GapBefore(fields, got, i + 1, j);
    }
  }

  lemma {:induction false} GapPast(fields: seq<Field>, got: map<string, Decoded>, i: nat, j: nat)
    requires i <= j <= |fields|
    requires forall k | i <= k < j :: !IsGap(fields[k], got)
    ensures FirstGap(fields, got, i) == FirstGap(fields, got, j)
    decreases j - i
  {
    if i < j {
      GapPast(fields, got, i + 1, j);
    }
  }

  // ---- A table ----

  function WalkOn(s: Schema, t: Target, path: string, skip: set<string>, i: nat,
      got: map<string, Decoded>): Trace<map<string, Decoded>>
    requires IsTable(s) && i <= |EntriesOf(t)|
  {
    WalkRest(s, t, path, WalkEntries(s, t, path, skip, i, got))
  }

  function ReadOn(cx: Plan, s: Schema, t: Target, path: string, i: nat, got: map<string, Decoded>,
      log: Log): (Log, Result<Decoded>)
    requires IsTable(s) && i <= |EntriesOf(t)| && (s.SAny? ==> t.At? && t.node.value.Table?)
  {
    var (log2, r2) := ReadEntries(cx, s, t, path, i, got, log);
    if r2.Err? then TableResult(cx, t, path, Err(r2.error), log2)
    else ReadLast(cx, s, t, path, Extras(cx.patches, path, EntriesOf(t)), 0, r2.value, log2)
  }

  function OnPlaces(s: Schema, t: Target, path: string, skip: set<string>, i: nat): seq<string>
    requires IsTable(s) && i <= |EntriesOf(t)|
  {
    EntryPlaces(s, t, path, skip, i) + FieldPlaces(s, t, path, 0)
  }

  /** Every fill from entry `i` on is at the table or at a table beneath it that is still to be read. */
  lemma OnFills(s: Schema, t: Target, path: string, skip: set<string>, i: nat, got: map<string, Decoded>)
    requires IsTable(s) && i <= |EntriesOf(t)|
    ensures AllAt(Fills(WalkOn(s, t, path, skip, i, got).events), [path] + OnPlaces(s, t, path, skip, i))
  {
    hide WalkEntries, WalkGaps, EntryPlaces, FieldPlaces, Fills;
    var tr := WalkEntries(s, t, path, skip, i, got);
    EntriesFills(s, t, path, skip, i, got);
    if tr.end.Done? {
      GapsFills(s, t, path, 0, tr.end.value);
      BeforeFills(tr.events, WalkGaps(s, t, path, 0, tr.end.value));
    }
  }

  lemma OnPlacesNext(s: Schema, t: Target, path: string, skip: set<string>, i: nat)
    requires IsTable(s) && i < |EntriesOf(t)|
    ensures OnPlaces(s, t, path, skip, i) == EntryPlace(s, t, path, skip, i) + OnPlaces(s, t, path, skip, i + 1)
  {
    hide EntryPlace, FieldPlaces;
  }

  /** A table whose read stands at entry `i`. */
  ghost predicate AmongEntries(cx: Plan, s: Schema, t: Target, path: string, i: nat, got: map<string, Decoded>,
      log: Log) {
    && IsTable(s) && (s.SAny? ==> t.At? && t.node.value.Table?) && UniqueTable(s, t)
    && SkipsSupplied(cx, t, path) && log.patch.None? && i <= |EntriesOf(t)|
    && (forall k | k in got :: NotFrom(EntriesOf(t), i, k))
    && (forall a | 0 <= a < i && Reads(s, EntriesOf(t)[a].key) && !SetAside(cx, path, EntriesOf(t)[a].key) ::
      EntriesOf(t)[a].key in got)
    && Extras(cx.patches, path, EntriesOf(t)) == Own(cx.patches, path)
  }

  ghost predicate AtEntry(cx: Plan, s: Schema, t: Target, path: string, i: nat, got: map<string, Decoded>, log: Log,
      m: nat) {
    && AmongEntries(cx, s, t, path, i, got, log)
    && m <= |Fills(WalkOn(s, t, path, SkipAt(cx, path), i, got).events)|
    && Room(cx, path, OnPlaces(s, t, path, SkipAt(cx, path), i))
    && AlignedFrom(cx.patches, path, OnPlaces(s, t, path, SkipAt(cx, path), i), 0,
                   Fills(WalkOn(s, t, path, SkipAt(cx, path), i, got).events)[..m])
  }

  lemma {:induction false} SimOn(cx: Plan, s: Schema, t: Target, path: string, i: nat, got: map<string, Decoded>,
      log: Log, m: nat)
    requires AtEntry(cx, s, t, path, i, got, log, m)
    ensures Matches(cx, path, Sealed(s, t, path, WalkOn(s, t, path, SkipAt(cx, path), i, got)), m, log,
                    ReadOn(cx, s, t, path, i, got, log))
    decreases s, Held(t), 4, |EntriesOf(t)| - i, 1
  {
    hide Walk, Read, WalkEntry, WalkGaps, NextValue, UniqueRead, UniqueTable, Own, AlignedFrom, Matches, Sealed, Fills,
      ReadLast, Extras, SkipsSupplied,
      Room, Places, FieldPlaces;
    var entries, skip := EntriesOf(t), SkipAt(cx, path);
    if i == |entries| {
      assert OnPlaces(s, t, path, skip, i) == FieldPlaces(s, t, path, 0);
      assert PastEntries(cx, s, t, path, 0, got, log);
      BeforeNothing(WalkGaps(s, t, path, 0, got));
      SimLast(cx, s, t, path, 0, 0, got, log, m);
    } else if SetAside(cx, path, entries[i].key) || !Reads(s, entries[i].key) {
      OnPlacesNext(s, t, path, skip, i);
      assert [] + OnPlaces(s, t, path, skip, i + 1) == OnPlaces(s, t, path, skip, i + 1);
      SimOn(cx, s, t, path, i + 1, got, log, m);
    } else {
      SimEntry(cx, s, t, path, i, got, log, m);
    }
  }

  function OnRest(s: Schema, t: Target, path: string, skip: set<string>, i: nat,
      got: map<string, Decoded>): Trace<map<string, Decoded>>
    requires IsTable(s) && i < |EntriesOf(t)| && Reads(s, EntriesOf(t)[i].key)
  {
    var key := EntriesOf(t)[i].key;
    var tr := WalkEntry(Under(s, key), At(EntriesOf(t)[i].node), JoinKey(path, key));
    if tr.end.Stop? then Trace([], Stop(true, None)) else WalkOn(s, t, path, skip, i + 1, got[key := tr.end.value])
  }

  /** An entry the type reads, then the rest. */
  lemma {:induction false} SimEntry(cx: Plan, s: Schema, t: Target, path: string, i: nat, got: map<string, Decoded>,
      log: Log, m: nat)
    requires AtEntry(cx, s, t, path, i, got, log, m) && i < |EntriesOf(t)|
    requires Reads(s, EntriesOf(t)[i].key) && !SetAside(cx, path, EntriesOf(t)[i].key)
    ensures Matches(cx, path, Sealed(s, t, path, WalkOn(s, t, path, SkipAt(cx, path), i, got)), m, log,
                    ReadOn(cx, s, t, path, i, got, log))
    decreases s, Held(t), 4, |EntriesOf(t)| - i, 0
  {
    hide Walk, Read, WalkEntry, WalkGaps, NextValue, UniqueRead, UniqueTable, Own, AlignedFrom, Aligned, Matches,
      Sealed, Fills,
      ReadLast, Extras, WalkOn, ReadOn, OnRest, Chained, SkipsSupplied, Room, Places, OnPlaces, AllAt, Apart;
    var skip, key, node := SkipAt(cx, path), EntriesOf(t)[i].key, EntriesOf(t)[i].node;
    var tr := WalkEntry(Under(s, key), At(node), JoinKey(path, key));
    var rest := OnRest(s, t, path, skip, i, got);
    var part := NextValue(cx, Under(s, key), At(node), path, JoinKey(path, key), log);
    var child, after := Fills(tr.events), Fills(rest.events);
    var here, there := Places(Under(s, key), At(node), JoinKey(path, key), {}), OnPlaces(s, t, path, skip, i + 1);
    EntrySteps(cx, s, t, path, i, got, log, m);
    UniqueEntry(s, t, i);
    EntryFills(Under(s, key), At(node), JoinKey(path, key));
    RoomParts(cx, path, here, there);
    RoomIsApart(cx, path, here + there);
    SplitKey(cx.patches, path, here, there, 0, child, after, m);
    SimNext(cx, Under(s, key), At(node), path, JoinKey(path, key), log, Least(m, |child|));
    OnStep(cx, s, t, path, i, got, log);
    if part.1.Ok? {
      MatchesOk(cx, path, tr, Least(m, |child|), log, part);
      EntryMoves(cx, s, t, path, i, got, log, m, part);
      SimOn(cx, s, t, path, i + 1, got[key := part.1.value], part.0, m - |child|);
    }
    StepMatches(cx, s, t, path, tr, rest, m, log, part, ReadOn(cx, s, t, path, i, got, log));
  }

  /** The walk of an entry, then of the rest. */
  lemma EntrySteps(cx: Plan, s: Schema, t: Target, path: string, i: nat, got: map<string, Decoded>, log: Log, m: nat)
    requires AtEntry(cx, s, t, path, i, got, log, m) && i < |EntriesOf(t)|
    requires Reads(s, EntriesOf(t)[i].key) && !SetAside(cx, path, EntriesOf(t)[i].key)
    ensures var skip, key := SkipAt(cx, path), EntriesOf(t)[i].key;
            var tr := WalkEntry(Under(s, key), At(EntriesOf(t)[i].node), JoinKey(path, key));
            var rest := OnRest(s, t, path, skip, i, got);
            && (tr.end.Stop? ==> tr.end.recorded)
            && WalkOn(s, t, path, skip, i, got) == Chained(tr, rest)
            && Fills(Chained(tr, rest).events) == Fills(tr.events) + Fills(rest.events)
            && AllAt(Fills(rest.events), [path] + OnPlaces(s, t, path, skip, i + 1))
            && OnPlaces(s, t, path, skip, i) ==
               Places(Under(s, key), At(EntriesOf(t)[i].node), JoinKey(path, key), {}) +
                 OnPlaces(s, t, path, skip, i + 1)
            && key !in got
  {
    hide Walk, WalkGaps, UniqueTable, UniqueRead, AlignedFrom, Own, Extras, Fills, Founds, SkipsSupplied, Room,
      Places, OnPlaces;
    var skip, key := SkipAt(cx, path), EntriesOf(t)[i].key;
    var tr := WalkEntry(Under(s, key), At(EntriesOf(t)[i].node), JoinKey(path, key));
    NoEvents();
    OnPlacesNext(s, t, path, skip, i);
    assert key !in got;
    if tr.end.Done? {
      var next := WalkEntries(s, t, path, skip, i + 1, got[key := tr.end.value]);
      OnFills(s, t, path, skip, i + 1, got[key := tr.end.value]);
      if next.end.Done? {
        BeforeBefore(tr.events, next.events, WalkGaps(s, t, path, 0, next.end.value));
      }
    }
    ChainedFills(tr, OnRest(s, t, path, skip, i, got));
  }

  lemma RoomIsApart(cx: Plan, path: string, places: seq<string>)
    requires Room(cx, path, places)
    ensures Apart([path] + places)
  {
  }

  /** The read of an entry, then of the rest. */
  lemma OnStep(cx: Plan, s: Schema, t: Target, path: string, i: nat, got: map<string, Decoded>, log: Log)
    requires IsTable(s) && i < |EntriesOf(t)| && (s.SAny? ==> t.At? && t.node.value.Table?)
    requires Reads(s, EntriesOf(t)[i].key) && !SetAside(cx, path, EntriesOf(t)[i].key) && EntriesOf(t)[i].key !in got
    ensures var key := EntriesOf(t)[i].key;
            var part := NextValue(cx, Under(s, key), At(EntriesOf(t)[i].node), path, JoinKey(path, key), log);
            ReadOn(cx, s, t, path, i, got, log) ==
            if part.1.Err? then TableResult(cx, t, path, Err(part.1.error), part.0)
            else ReadOn(cx, s, t, path, i + 1, got[key := part.1.value], part.0)
  {
    hide NextValue, TableResult, ReadLast, Extras;
  }

  /** With the entry read, the table's read stands at the next one. */
  lemma EntryMoves(cx: Plan, s: Schema, t: Target, path: string, i: nat, got: map<string, Decoded>, log: Log, m: nat,
      part: (Log, Result<Decoded>))
    requires AtEntry(cx, s, t, path, i, got, log, m) && i < |EntriesOf(t)|
    requires Reads(s, EntriesOf(t)[i].key) && NotFrom(EntriesOf(t), i + 1, EntriesOf(t)[i].key)
    requires var key := EntriesOf(t)[i].key;
             var tr := WalkEntry(Under(s, key), At(EntriesOf(t)[i].node), JoinKey(path, key));
             var rest := OnRest(s, t, path, SkipAt(cx, path), i, got);
             && part.1.Ok? && tr.end == Done(part.1.value) && part.0.patch == log.patch
             && |Fills(tr.events)| <= m <= |Fills(tr.events)| + |Fills(rest.events)|
             && Room(cx, path, OnPlaces(s, t, path, SkipAt(cx, path), i + 1))
             && AlignedFrom(cx.patches, path, OnPlaces(s, t, path, SkipAt(cx, path), i + 1), 0,
               Fills(rest.events)[..m - |Fills(tr.events)|])
    ensures var key := EntriesOf(t)[i].key;
            var tr := WalkEntry(Under(s, key), At(EntriesOf(t)[i].node), JoinKey(path, key));
            && AtEntry(cx, s, t, path, i + 1, got[key := part.1.value], part.0, m - |Fills(tr.events)|)
            && OnRest(s, t, path, SkipAt(cx, path), i, got) ==
              WalkOn(s, t, path, SkipAt(cx, path), i + 1, got[key := part.1.value])
  {
    hide WalkEntry, WalkOn, UniqueTable, AlignedFrom, Fills, Own, Extras, SkipsSupplied, HasKey, Room, OnPlaces;
  }

  lemma {:induction false} SimTable(cx: Plan, s: Schema, t: Target, path: string, log: Log, m: nat)
    requires IsTable(s) && (s.SAny? ==> t.At? && t.node.value.Table?) && UniqueTable(s, t)
    requires SkipsSupplied(cx, t, path) && log.patch.None?
    requires Apart(TablePlaces(s, t, path, SkipAt(cx, path))) &&
             (path == cx.root || cx.root !in TablePlaces(s, t, path, SkipAt(cx, path)))
    requires m <= |Fills(WalkTable(s, t, path, SkipAt(cx, path)).events)|
    requires Aligned(cx.patches, TablePlaces(s, t, path, SkipAt(cx, path)),
             Fills(WalkTable(s, t, path, SkipAt(cx, path)).events)[..m])
    ensures Matches(cx, path, WalkTable(s, t, path, SkipAt(cx, path)), m, log, ReadTable(cx, s, t, path, log))
    decreases s, Held(t), 4, |EntriesOf(t)| + 1, 0
  {
    hide Walk, Read, WalkEntries, WalkGaps, ReadEntries, ReadExtras, Extras, UniqueTable, Own, Matches, Sealed, Fills,
      Founds, TableResult, Closed,
      EntryPlaces, FieldPlaces, Apart, SkipsSupplied, Aligned, AlignedFrom;
    var first := AllFound(NotATable(t, path));
    var tr := WalkOn(s, t, path, SkipAt(cx, path), 0, map[]);
    var log1 := Record(log, NotATable(t, path));
    AllFoundParts(NotATable(t, path));
    SealedBefore(s, t, path, first, tr);
    SealedFills(s, t, path, tr);
    BeforeFills(first, Sealed(s, t, path, tr));
    assert [] + Fills(tr.events) == Fills(tr.events);
    var places := OnPlaces(s, t, path, SkipAt(cx, path), 0);
    AlignedAtStart(cx, path, places, Fills(tr.events)[..m]);
    TableExtras(cx, s, t, path, m);
    SimOn(cx, s, t, path, 0, map[], log1, m);
    assert ReadTable(cx, s, t, path, log) == ReadOn(cx, s, t, path, 0, map[], log1);
    MatchesBefore(cx, path, first, Sealed(s, t, path, tr), m, log, log1, ReadOn(cx, s, t, path, 0, map[], log1));
  }

  lemma AlignedAtStart(cx: Plan, path: string, places: seq<string>, fills: seq<NewPatch>)
    requires Aligned(cx.patches, [path] + places, fills)
    requires Apart([path] + places) && (path == cx.root || cx.root !in [path] + places)
    ensures AlignedFrom(cx.patches, path, places, 0, fills) && Own(cx.patches, path) == Own(PatchesOf(fills), path)
    ensures Room(cx, path, places) && path !in places
  {
    ApartParts([path], places);
    assert path in [path] + places && path in [path];
    assert Own(cx.patches, path)[0..] == Own(cx.patches, path);
    assert forall q | q in places :: q in [path] + places;
  }

  /** The placeholders a table is given are the fields patched in it. */
  lemma TableExtras(cx: Plan, s: Schema, t: Target, path: string, m: nat)
    requires IsTable(s) && path !in OnPlaces(s, t, path, SkipAt(cx, path), 0)
    requires m <= |Fills(WalkOn(s, t, path, SkipAt(cx, path), 0, map[]).events)|
    requires Own(cx.patches, path) ==
               Own(PatchesOf(Fills(WalkOn(s, t, path, SkipAt(cx, path), 0, map[]).events)[..m]), path)
    ensures Extras(cx.patches, path, EntriesOf(t)) == Own(cx.patches, path)
  {
    hide WalkOn, HasKey, Fills;
    var fills := Fills(WalkOn(s, t, path, SkipAt(cx, path), 0, map[]).events);
    var used := PatchesOf(fills[..m]);
    OwnNames(s, t, path, SkipAt(cx, path));
    forall i | 0 <= i < |Own(cx.patches, path)|
      ensures !HasKey(EntriesOf(t), Own(cx.patches, path)[i])
    {
      var name := Own(cx.patches, path)[i];
      OwnMember(used, Patch(path, name));
      var k :| 0 <= k < |used| && used[k] == Patch(path, name);
      assert fills[k].patch == Patch(path, name);
    }
    ExtrasAreOwn(cx.patches, path, EntriesOf(t));
  }

  /** A field supplied at a table is none of its entries. */
  predicate NotKeys(fills: seq<NewPatch>, path: string, entries: seq<Entry>) {
    forall i | 0 <= i < |fills| && fills[i].patch.parent == path :: !HasKey(entries, fills[i].patch.field)
  }

  lemma OwnNames(s: Schema, t: Target, path: string, skip: set<string>)
    requires IsTable(s) && path !in OnPlaces(s, t, path, skip, 0)
    ensures NotKeys(Fills(WalkOn(s, t, path, skip, 0, map[]).events), path, EntriesOf(t))
  {
    hide WalkEntries, WalkGaps, HasKey, Fills, EntryPlaces, FieldPlaces;
    var tr := WalkEntries(s, t, path, skip, 0, map[]);
    EntriesFills(s, t, path, skip, 0, map[]);
    if tr.end.Done? {
      GapNames(s, t, path, 0, tr.end.value);
      BeforeFills(tr.events, WalkGaps(s, t, path, 0, tr.end.value));
    }
  }

  lemma {:induction false} GapNames(s: Schema, t: Target, path: string, j: nat, got: map<string, Decoded>)
    requires IsTable(s) && j <= |FieldsOf(s)| && path !in FieldPlaces(s, t, path, j)
    ensures NotKeys(Fills(WalkGaps(s, t, path, j, got).events), path, EntriesOf(t))
    decreases |FieldsOf(s)| - j
  {
    hide WalkSupplied, WalkEntry, HasKey, Fills, Places;
    NoEvents();
    if j < |FieldsOf(s)| {
      var f := FieldsOf(s)[j];
      if !IsGap(f, got) {
        GapNames(s, t, path, j + 1, got);
      } else if GivenFor(f).Required? && !HasKey(EntriesOf(t), f.name) {
        var tr := WalkSupplied(f, t, path);
        SuppliedFills(f, t, path);
        if tr.end.Done? {
          GapNames(s, t, path, j + 1, got[f.name := tr.end.value]);
          BeforeFills(tr.events, WalkGaps(s, t, path, j + 1, got[f.name := tr.end.value]));
        }
      }
    }
  }

  // ---- An array ----

  lemma NoneThere(fills: seq<NewPatch>, here: seq<string>, there: seq<string>)
    requires Disjoint(here, there) && AllAt(fills, there)
    ensures NoneAt(fills, here)
  {
  }

  lemma {:induction false} SimItems(cx: Plan, s: Schema, t: Target, path: string, i: nat, got: seq<Decoded>, log: Log,
      m: nat)
    requires s.SSeq? || s.SAny?
    requires t.At? && t.node.value.Array? && i <= |t.node.value.items| && UniqueItems(s, t)
    requires Apart(ItemPlaces(s, t, path, i)) && cx.root !in ItemPlaces(s, t, path, i) && log.patch.None?
    requires m <= |Fills(WalkItems(s, t, path, i, got).events)|
    requires Aligned(cx.patches, ItemPlaces(s, t, path, i), Fills(WalkItems(s, t, path, i, got).events)[..m])
    ensures Matches(cx, path, WalkItems(s, t, path, i, got), m, log, ReadItems(cx, s, t, path, i, got, log))
    decreases s, Held(t), 0, |t.node.value.items| - i
  {
    hide Walk, Read, UniqueRead, Own, Fills, Founds, Aligned, Apart, Places, Disjoint;
    var items := t.node.value.items;
    NoEvents();
    if i < |items| {
      var below := JoinIndex(path, i);
      var tr := Walk(ElementOf(s), At(items[i]), below, {});
      var rest := if tr.end.Done? then WalkItems(s, t, path, i + 1, got + [tr.end.value]) else Trace([], tr.end);
      var child, after := Fills(tr.events), Fills(rest.events);
      var here, there := Places(ElementOf(s), At(items[i]), below, {}), ItemPlaces(s, t, path, i + 1);
      assert items[i] == ItemsOf(t)[i];
      WalkFills(ElementOf(s), At(items[i]), below, {});
      ApartParts(here, there);
      if tr.end.Done? {
        ItemFills(s, t, path, i + 1, got + [tr.end.value]);
        BeforeFills(tr.events, rest);
      }
      NoneThere(after, here, there);
      assert child + [] == child;
      SplitPart(cx.patches, here, there, child, after, m);
      SimBelow(cx, ElementOf(s), At(items[i]), below, log, Least(m, |child|));
      var part := Read(cx, ElementOf(s), At(items[i]), below, log);
      if part.1.Ok? {
        SimItems(cx, s, t, path, i + 1, got + [part.1.value], part.0, m - |child|);
        MatchesBefore(cx, path, tr.events, rest, m, log, part.0, ReadItems(cx, s, t, path, i, got, log));
      }
    }
  }

  lemma {:induction false} SimSeq(cx: Plan, s: Schema, t: Target, path: string, log: Log, m: nat)
    requires s.SSeq? || (s.SAny? && t.At? && t.node.value.Array?)
    requires UniqueItems(s, t) && log.patch.None?
    requires Apart(ItemPlaces(s, t, path, 0)) && (path == cx.root || cx.root !in ItemPlaces(s, t, path, 0))
    requires m <= |Fills(WalkSeq(s, t, path).events)|
    requires Aligned(cx.patches, ItemPlaces(s, t, path, 0), Fills(WalkSeq(s, t, path).events)[..m])
    ensures Matches(cx, path, WalkSeq(s, t, path), m, log, ReadSeq(cx, s, t, path, log))
    decreases s, Held(t), 1, 0
  {
    hide WalkItems, ReadItems, Own, UniqueItems, ItemPlaces, Apart, Aligned;
    if t.At? && t.node.value.Array? {
      ItemsLong(s, t, path, 0);
      ToldFills(t, path, WalkItems(s, t, path, 0, []));
      SimItems(cx, s, t, path, 0, [], log, m);
      MatchesTold(cx, t, path, WalkItems(s, t, path, 0, []), m, log, ReadItems(cx, s, t, path, 0, [], log));
    } else {
      AllFoundParts(Mismatch(t, path, "an array"));
    }
  }

  // ---- Any value ----

  lemma {:induction false} SimRead(cx: Plan, s: Schema, t: Target, path: string, log: Log, m: nat)
    requires Ready(cx, s, t, path, log, m)
    ensures Matches(cx, path, Walk(s, t, path, SkipAt(cx, path)), m, log, Read(cx, s, t, path, log))
    decreases s, Held(t), 5, 1
  {
    hide Walk, Read, UniqueRead, SkipsSupplied, Aligned, Places, Apart, Matches, Fills;
    match s
    case SOption(_) => SimOption(cx, s, t, path, log, m);
    case SMapped(_, _) => SimMapped(cx, s, t, path, log, m);
    case SSeq(_) => SimArray(cx, s, t, path, log, m);
    case SAny =>
      if t.At? && t.node.value.Array? {
        SimArray(cx, s, t, path, log, m);
      } else if t.At? && t.node.value.Table? {
        SimEntries(cx, s, t, path, log, m);
      } else {
        SimPlain(cx, s, t, path, log, m);
      }
    case SMap(_) => SimEntries(cx, s, t, path, log, m);
    case SStruct(_) => SimEntries(cx, s, t, path, log, m);
    case _ => SimPlain(cx, s, t, path, log, m);
  }

  lemma OptionUnfolds(cx: Plan, s: Schema, t: Target, path: string, skip: set<string>, log: Log)
    requires s.SOption? && t.At? && !t.node.value.Null?
    ensures Walk(s, t, path, skip) == Optional(t, path, Walk(s.inner, t, path, skip))
    ensures var (log1, r) := Read(cx, s.inner, t, path, log);
            Read(cx, s, t, path, log) == RecordError(t, path, if r.Ok? then Ok(DSome(r.value)) else r, log1)
    ensures UniqueRead(s, t) == UniqueRead(s.inner, t) && Places(s, t, path, skip) == Places(s.inner, t, path, skip)
  {
  }

  lemma {:induction false} SimOption(cx: Plan, s: Schema, t: Target, path: string, log: Log, m: nat)
    requires Ready(cx, s, t, path, log, m) && s.SOption?
    ensures Matches(cx, path, Walk(s, t, path, SkipAt(cx, path)), m, log, Read(cx, s, t, path, log))
    decreases s, Held(t), 5, 0
  {
    if t.Absent? || t.node.value.Null? {
      hide SkipsSupplied, Aligned, Apart;
    } else {
      hide Walk, Read, UniqueRead, SkipsSupplied, Aligned, Places, Apart;
      var tr := Walk(s.inner, t, path, SkipAt(cx, path));
      OptionUnfolds(cx, s, t, path, SkipAt(cx, path), log);
      ToldFills(t, path, tr);
      SimRead(cx, s.inner, t, path, log, m);
      MatchesTold(cx, t, path, tr, m, log, Read(cx, s.inner, t, path, log));
    }
  }

  lemma MappedUnfolds(cx: Plan, s: Schema, t: Target, path: string, skip: set<string>, log: Log)
    requires s.SMapped?
    ensures Walk(s, t, path, skip) == Screened(s.takes, Walk(s.inner, t, path, skip))
    ensures var (log1, r) := Read(cx, s.inner, t, path, log);
            Read(cx, s, t, path, log) == if r.Ok? && !s.takes(r.value) then (log1, Err(REFUSAL)) else (log1, r)
    ensures UniqueRead(s, t) == UniqueRead(s.inner, t) && Places(s, t, path, skip) == Places(s.inner, t, path, skip)
  {
  }

  lemma {:induction false} SimMapped(cx: Plan, s: Schema, t: Target, path: string, log: Log, m: nat)
    requires Ready(cx, s, t, path, log, m) && s.SMapped?
    ensures Matches(cx, path, Walk(s, t, path, SkipAt(cx, path)), m, log, Read(cx, s, t, path, log))
    decreases s, Held(t), 5, 0
  {
    hide Walk, Read, UniqueRead, SkipsSupplied, Aligned, Places, Apart;
    MappedUnfolds(cx, s, t, path, SkipAt(cx, path), log);
    SimRead(cx, s.inner, t, path, log, m);
  }

  lemma {:induction false} SimArray(cx: Plan, s: Schema, t: Target, path: string, log: Log, m: nat)
    requires Ready(cx, s, t, path, log, m) && (s.SSeq? || (s.SAny? && t.At? && t.node.value.Array?))
    ensures Matches(cx, path, Walk(s, t, path, SkipAt(cx, path)), m, log, Read(cx, s, t, path, log))
    decreases s, Held(t), 5, 0
  {
    hide WalkSeq, ReadSeq, UniqueItems, SkipsSupplied, Aligned, Apart, ItemPlaces, Matches;
    SimSeq(cx, s, t, path, log, m);
  }

  lemma {:induction false} SimEntries(cx: Plan, s: Schema, t: Target, path: string, log: Log, m: nat)
    requires Ready(cx, s, t, path, log, m) && IsTable(s) && (s.SAny? ==> t.At? && t.node.value.Table?)
    ensures Matches(cx, path, Walk(s, t, path, SkipAt(cx, path)), m, log, Read(cx, s, t, path, log))
    decreases s, Held(t), 5, 0
  {
    hide WalkTable, ReadTable, UniqueTable, SkipsSupplied, Aligned, Apart, TablePlaces, Matches;
    OwnPlace(s, t, path, SkipAt(cx, path));
    SimTable(cx, s, t, path, log, m);
  }

  lemma SimPlain(cx: Plan, s: Schema, t: Target, path: string, log: Log, m: nat)
    requires Ready(cx, s, t, path, log, m)
    requires IsScalarSchema(s) || (s.SAny? && (t.At? ==> IsScalar(t.node)))
    ensures Matches(cx, path, Walk(s, t, path, SkipAt(cx, path)), m, log, Read(cx, s, t, path, log))
  {
    hide ReadScalar, Mismatch, SkipsSupplied, Aligned, Apart, Places, Matches, AllFound, Fills;
    assert m == 0 by { PlainFills(s, t, path, SkipAt(cx, path)); }
    if s.SAny? && t.At? {
      NothingFound(cx, path, Done(DRaw(t.node.value)), log, (Consumed(t, path, log), Ok(DRaw(t.node.value))));
    } else if s.SAny? {
      var problems := Mismatch(t, path, "a value");
      AllFoundMatches(cx, path, problems, Done(DRaw(Null)), log, (Record(log, problems), Ok(DRaw(Null))));
    } else {
      var r := ReadScalar(s, t, path);
      AllFoundMatches(cx, path, r.problems, if r.value.Some? then Done(r.value.value) else Stop(true, None), log,
                      (Record(Consumed(t, path, log), r.problems),
                        if r.value.Some? then Ok(r.value.value) else Err(Silenced(REFUSAL))));
    }
  }

  lemma PlainFills(s: Schema, t: Target, path: string, skip: set<string>)
    requires IsScalarSchema(s) || (s.SAny? && (t.At? ==> IsScalar(t.node)))
    ensures Fills(Walk(s, t, path, skip).events) == []
  {
    hide ReadScalar, Mismatch, AllFound;
    AllFoundParts(Mismatch(t, path, "a value"));
    if IsScalarSchema(s) {
      AllFoundParts(ReadScalar(s, t, path).problems);
    }
  }

  lemma NothingFound(cx: Plan, path: string, end: End<Decoded>, log: Log, out: (Log, Result<Decoded>))
    requires end.Done? && EndMatches(end, out.1)
    requires out.0.problems == log.problems && out.0.patch == log.patch && out.0.failed == log.failed
    ensures Matches(cx, path, Trace([], end), 0, log, out)
  {
    assert log.problems + [] == log.problems;
  }

  lemma AllFoundMatches(cx: Plan, path: string, problems: seq<Problem>, end: End<Decoded>, log: Log,
      out: (Log, Result<Decoded>))
    requires EndMatches(end, out.1) && (end.Stop? ==> end.section.None?)
    requires out.0.problems == log.problems + problems && out.0.patch == log.patch && out.0.failed == log.failed
    ensures Matches(cx, path, Trace(AllFound(problems), end), 0, log, out)
  {
    hide AllFound, Fills, Founds;
    AllFoundParts(problems);
  }
}
