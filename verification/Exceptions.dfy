/** Missing fields that a report leaves out, and exactly when. */
module Exceptions {
  import opened Options
  import opened Trees
  import opened Schemas
  import opened Reader
  import opened Walks
  import opened PathOrder
  import opened Events
  import opened Simulation
  import opened CleanReads
  import opened CleanKeys
  import opened Drivers
  import opened ReportLaws
  import opened Checks
  import opened Sections

  // ---- Missing fields declared after a failed one ----

  /** The visitor cannot go on past field `k`: it has no value, and none can be supplied. */
  predicate Blocks(s: Schema, t: Target, path: string, k: nat, got: map<string, Decoded>)
    requires s.SStruct? && k < |s.fields|
  {
    var f := s.fields[k];
    f.name !in got && !GivenFor(f).Value? &&
    (GivenFor(f).Unacceptable? || HasKey(EntriesOf(t), f.name) || WalkSupplied(f, t, path).end.Stop?)
  }

  predicate NoneBlocks(s: Schema, t: Target, path: string, from: nat, j: nat, got: map<string, Decoded>)
    requires s.SStruct? && j <= |s.fields|
  {
    forall k | from <= k < j :: !Blocks(s, t, path, k, got)
  }

  function MissingAt(t: Target, path: string, f: Field): Problem {
    Problem(JoinKey(path, f.name), SuppliedOrigin(t), MissingField)
  }

  /**
   * A missing top-level field is reported exactly when no field declared before it blocks: a section
   * set aside after its refusal, or a missing field whose type refuses the placeholder.
   */
  lemma {:induction false} MissingFieldTold(s: Schema, t: Target, path: string, from: nat, j: nat,
      got: map<string, Decoded>)
    requires s.SStruct? && UniqueNames(s.fields) && from <= j < |s.fields|
    requires Lacks(s.fields[j], t) && s.fields[j].name !in got && !Silent(t) && (t.At? ==> t.node.value.Table?)
    ensures MissingAt(t, path, s.fields[j]) in Reports(WalkGaps(s, t, path, from, got).events) <==>
            NoneBlocks(s, t, path, from, j, got)
    decreases j - from
  {
    hide WalkSupplied, Reports, Founds, NoneBlocks, Lacks;
    var f := s.fields[from];
    BlocksFirst(s, t, path, from, j, got);
    SuppliedTells(f, t, path);
    var tr := WalkSupplied(f, t, path);
    if from == j {
      assert GivenFor(f).Required? && !HasKey(EntriesOf(t), f.name) by { LacksSays(f, t); }
      if tr.end.Done? {
        ReportsAppend(tr.events, WalkGaps(s, t, path, from + 1, got[f.name := tr.end.value]).events);
      }
    } else if f.name in got || GivenFor(f).Value? {
      MissingFieldTold(s, t, path, from + 1, j, got);
    } else {
      OtherPath(path, f, s.fields[j], t);
      if Blocks(s, t, path, from, got) {
        NoEvents();
      } else {
        var more := got[f.name := tr.end.value];
        MissingFieldTold(s, t, path, from + 1, j, more);
        BlocksSame(s, t, path, from, j, got, tr.end.value);
        ReportsAppend(tr.events, WalkGaps(s, t, path, from + 1, more).events);
      }
    }
  }

  lemma LacksSays(f: Field, t: Target)
    requires Lacks(f, t)
    ensures GivenFor(f).Required? && !HasKey(EntriesOf(t), f.name)
  {
  }

  lemma BlocksFirst(s: Schema, t: Target, path: string, from: nat, j: nat, got: map<string, Decoded>)
    requires s.SStruct? && from <= j <= |s.fields|
    ensures from == j ==> NoneBlocks(s, t, path, from, j, got)
    ensures from < j ==>
              (NoneBlocks(s, t, path, from, j, got) <==>
              !Blocks(s, t, path, from, got) && NoneBlocks(s, t, path, from + 1, j, got))
  {
    hide Blocks;
  }

  lemma BlocksSame(s: Schema, t: Target, path: string, from: nat, j: nat, got: map<string, Decoded>, value: Decoded)
    requires s.SStruct? && UniqueNames(s.fields) && from < j <= |s.fields|
    ensures NoneBlocks(s, t, path, from + 1, j, got) <==>
            NoneBlocks(s, t, path, from + 1, j, got[s.fields[from].name := value])
  {
    hide WalkSupplied;
    var more := got[s.fields[from].name := value];
    assert forall k | from + 1 <= k < j :: Blocks(s, t, path, k, got) == Blocks(s, t, path, k, more);
  }

  lemma SuppliedTells(f: Field, t: Target, path: string)
    requires !Silent(t) && (t.At? ==> t.node.value.Table?)
    ensures Reports(WalkSupplied(f, t, path).events) == [MissingAt(t, path, f)]
  {
    hide Walk, Founds;
    var below := Absent(true, OriginOf(t));
    SilentWalk(f.schema, below, JoinKey(path, f.name), {});
    SilentEntry(f.schema, below, JoinKey(path, f.name));
    var fill := [Fill(NewPatch(Patch(path, f.name), MissingProblem(t, path, f.name)))];
    assert fill[1..] == [];
    ReportsAppend(fill, WalkEntry(f.schema, below, JoinKey(path, f.name)).events);
  }

  lemma OtherPath(path: string, f: Field, g: Field, t: Target)
    requires f.name != g.name
    ensures MissingAt(t, path, f) != MissingAt(t, path, g)
  {
    if JoinKey(path, f.name) == JoinKey(path, g.name) {
      JoinKeyInjective(path, f.name, g.name);
    }
  }

  // ---- In the whole report ----

  lemma UnderAppend(a: seq<Event>, b: seq<Event>, top: string)
    requires AllUnder(Reports(a), top) && AllUnder(Reports(b), top)
    ensures AllUnder(Reports(a + b), top)
  {
    hide Beneath, Reports;
    ReportsAppend(a, b);
  }

  lemma UnderTold<T>(t: Target, path: string, tr: Trace<T>)
    requires AllUnder(Reports(tr.events), path)
    ensures AllUnder(Reports(Told(t, path, tr).events), path)
  {
    hide Reports;
    if tr.end.Stop? {
      var told := if tr.end.recorded || Silent(t) then [] else [Found(Problem(path, OriginOf(t), Message.Refused))];
      NoEvents();
      ToldUnder(path, OriginOf(t));
      UnderAppend(tr.events, told, path);
    }
  }

  lemma ToldUnder(path: string, origin: Option<Origin>)
    ensures AllUnder(Reports([Found(Problem(path, origin, Message.Refused))]), path)
  {
    assert [Found(Problem(path, origin, Message.Refused))][1..] == [];
  }

  lemma FoundUnder(problems: seq<Problem>, path: string)
    requires forall i | 0 <= i < |problems| :: problems[i].path == path
    ensures AllUnder(Reports(AllFound(problems)), path)
  {
    AllFoundParts(problems);
  }

  /** What a walk tells of lies at its path or beneath it. */
  lemma {:induction false} WalkUnder(s: Schema, t: Target, path: string, skip: set<string>)
    requires Nameable(s, t)
    ensures AllUnder(Reports(Walk(s, t, path, skip).events), path)
    decreases s, Held(t), 5, 0
  {
    match s
    case SOption(inner) =>
      if t.At? && !t.node.value.Null? {
        WalkUnder(inner, t, path, skip);
        UnderTold(t, path, Walk(inner, t, path, skip));
      }
    case SMapped(inner, _) => WalkUnder(inner, t, path, skip);
    case SSeq(_) => SeqUnder(s, t, path);
    case SAny =>
      if t.Absent? {
        FoundUnder(Mismatch(t, path, "a value"), path);
      } else if t.node.value.Array? {
        SeqUnder(s, t, path);
      } else if t.node.value.Table? {
        TableUnder(s, t, path, skip);
      }
    case SMap(_) => TableUnder(s, t, path, skip);
    case SStruct(_) => TableUnder(s, t, path, skip);
    case _ => FoundUnder(ReadScalar(s, t, path).problems, path);
  }

  lemma {:induction false} SeqUnder(s: Schema, t: Target, path: string)
    requires (s.SSeq? || (s.SAny? && t.At? && t.node.value.Array?)) && NameableItems(s, t)
    ensures AllUnder(Reports(WalkSeq(s, t, path).events), path)
    decreases s, Held(t), 1, 0
  {
    if t.At? && t.node.value.Array? {
      ItemsUnder(s, t, path, 0, []);
      UnderTold(t, path, WalkItems(s, t, path, 0, []));
    } else {
      FoundUnder(Mismatch(t, path, "an array"), path);
    }
  }

  lemma {:induction false} ItemsUnder(s: Schema, t: Target, path: string, i: nat, got: seq<Decoded>)
    requires (s.SSeq? || s.SAny?) && t.At? && t.node.value.Array? && i <= |t.node.value.items| && NameableItems(s, t)
    ensures AllUnder(Reports(WalkItems(s, t, path, i, got).events), path)
    decreases s, Held(t), 0, |t.node.value.items| - i
  {
    hide Walk, Nameable, Beneath, Founds, Reports;
    NoEvents();
    if i < |t.node.value.items| {
      var item := At(t.node.value.items[i]);
      assert ItemsOf(t)[i] == item.node;
      WalkUnder(ElementOf(s), item, JoinIndex(path, i), {});
      var tr := Walk(ElementOf(s), item, JoinIndex(path, i), {});
      UnderIndex(Reports(tr.events), path, i);
      if tr.end.Done? {
        ItemsUnder(s, t, path, i + 1, got + [tr.end.value]);
        UnderAppend(tr.events, WalkItems(s, t, path, i + 1, got + [tr.end.value]).events, path);
      }
    }
  }

  lemma {:induction false} EntryUnder(s: Schema, t: Target, path: string)
    requires Nameable(s, t)
    ensures AllUnder(Reports(WalkEntry(s, t, path).events), path)
    decreases s, Held(t), 6, 0
  {
    hide Walk, Nameable, Reports;
    WalkUnder(s, t, path, {});
    UnderTold(t, path, Walk(s, t, path, {}));
  }

  lemma {:induction false} EntriesUnder(s: Schema, t: Target, path: string, skip: set<string>, i: nat,
      got: map<string, Decoded>)
    requires IsTable(s) && i <= |EntriesOf(t)| && NameableTable(s, t)
    ensures AllUnder(Reports(WalkEntries(s, t, path, skip, i, got).events), path)
    decreases s, Held(t), 3, |EntriesOf(t)| - i
  {
    hide WalkEntry, Nameable, NameableTable, CleanKey, Beneath, Founds, Reports;
    NoEvents();
    if i < |EntriesOf(t)| {
      var key := EntriesOf(t)[i].key;
      if JoinKey(path, key) in skip || !Reads(s, key) {
        EntriesUnder(s, t, path, skip, i + 1, got);
      } else if !Taken(s, key, got) {
        var tr := WalkEntry(Under(s, key), At(EntriesOf(t)[i].node), JoinKey(path, key));
        NameableEntry(s, t, i);
        EntryUnder(Under(s, key), At(EntriesOf(t)[i].node), JoinKey(path, key));
        UnderKey(Reports(tr.events), path, key);
        if tr.end.Done? {
          EntriesUnder(s, t, path, skip, i + 1, got[key := tr.end.value]);
          UnderAppend(tr.events, WalkEntries(s, t, path, skip, i + 1, got[key := tr.end.value]).events, path);
        }
      }
    }
  }

  lemma {:induction false} GapsUnder(s: Schema, t: Target, path: string, j: nat, got: map<string, Decoded>)
    requires IsTable(s) && j <= |FieldsOf(s)| && NameableTable(s, t)
    ensures AllUnder(Reports(WalkGaps(s, t, path, j, got).events), path)
    decreases |FieldsOf(s)| - j
  {
    hide WalkSupplied, NameableTable, Beneath, Founds, Reports;
    NoEvents();
    if j < |FieldsOf(s)| {
      var f := FieldsOf(s)[j];
      if f.name in got || GivenFor(f).Value? {
        GapsUnder(s, t, path, j + 1, got);
      } else if GivenFor(f).Required? && !HasKey(EntriesOf(t), f.name) {
        NameableField(s, t, j);
        SuppliedUnder(f, t, path);
        var tr := WalkSupplied(f, t, path);
        if tr.end.Done? {
          GapsUnder(s, t, path, j + 1, got[f.name := tr.end.value]);
          UnderAppend(tr.events, WalkGaps(s, t, path, j + 1, got[f.name := tr.end.value]).events, path);
        }
      }
    }
  }

  lemma SuppliedUnder(f: Field, t: Target, path: string)
    requires CleanKey(f.name)
    ensures AllUnder(Reports(WalkSupplied(f, t, path).events), path)
  {
    hide WalkEntry, Founds;
    var below := Absent(true, OriginOf(t));
    SilentWalk(f.schema, below, JoinKey(path, f.name), {});
    SilentEntry(f.schema, below, JoinKey(path, f.name));
    var fill := [Fill(NewPatch(Patch(path, f.name), MissingProblem(t, path, f.name)))];
    assert fill[1..] == [];
    KeyBeneath(path, f.name, JoinKey(path, f.name));
    UnderAppend(fill, WalkEntry(f.schema, below, JoinKey(path, f.name)).events, path);
  }

  lemma {:induction false} TableUnder(s: Schema, t: Target, path: string, skip: set<string>)
    requires IsTable(s) && NameableTable(s, t)
    ensures AllUnder(Reports(WalkTable(s, t, path, skip).events), path)
    decreases s, Held(t), 4, 0
  {
    hide WalkEntries, WalkGaps, NameableTable, Beneath, Founds, Reports, AllFound;
    var entries := WalkEntries(s, t, path, skip, 0, map[]);
    EntriesUnder(s, t, path, skip, 0, map[]);
    if entries.end.Done? {
      GapsUnder(s, t, path, 0, entries.end.value);
      UnderAppend(entries.events, WalkGaps(s, t, path, 0, entries.end.value).events, path);
    }
    var first, rest := AllFound(NotATable(t, path)), WalkRest(s, t, path, entries);
    FoundUnder(NotATable(t, path), path);
    UnderAppend(first, rest.events, path);
    UnderTold(t, path, Before(first, rest));
  }

  /** No section tells of what lies at a key that is no entry's. */
  lemma {:induction false} SectionsElsewhere(s: Schema, t: Target, path: string, i: nat, name: string)
    requires IsTable(s) && NameableTable(s, t) && i <= |EntriesOf(t)| && CleanKey(name) &&
             NotFrom(EntriesOf(t), i, name)
    ensures NoneUnder(Reports(SectionEvents(s, t, path, i)), JoinKey(path, name))
    decreases |EntriesOf(t)| - i
  {
    hide WalkEntry, Nameable, NameableTable, CleanKey, Beneath, Reports;
    NoEvents();
    if i < |EntriesOf(t)| {
      SectionsElsewhere(s, t, path, i + 1, name);
      var first := if ReadsAt(s, t, i) then SectionTrace(s, t, path, i).events else [];
      if ReadsAt(s, t, i) {
        NameableEntry(s, t, i);
        EntryUnder(Under(s, EntriesOf(t)[i].key), At(EntriesOf(t)[i].node), PathAt(t, path, i));
        UnderKey(Reports(first), path, EntriesOf(t)[i].key);
      }
      ReportsAppend(first, SectionEvents(s, t, path, i + 1));
    }
  }

  /** The whole report of a table: what its sections tell of, its missing fields, its own refusal. */
  lemma WholeParts(s: Schema, t: Target, path: string)
    requires (s.SMap? || s.SStruct?) && (t.At? ==> t.node.value.Table?)
    ensures var sections, gaps :=
              SectionEvents(s, t, path, 0), WalkGaps(s, t, path, 0, SectionValues(s, t, path, 0, map[]));
            var told := if gaps.end.Stop? && !gaps.end.recorded && !Silent(t) then
              [Problem(path, OriginOf(t), Message.Refused)] else [];
            WholeReport(s, t, path) == Reports(sections) + Reports(gaps.events) + told
  {
    hide WalkGaps, SectionEvents, SectionValues, Reports, Founds;
    var sections, gaps := SectionEvents(s, t, path, 0), WalkGaps(s, t, path, 0, SectionValues(s, t, path, 0, map[]));
    var first := AllFound(NotATable(t, path));
    assert first == [] && first + sections == sections;
    var content := Before(sections, gaps);
    assert Whole(s, t, path) == Sealed(s, t, path, content);
    assert WholeReport(s, t, path) == Reports(Told(t, path, content).events);
    ToldTells(t, path, content);
    ReportsAppend(sections, gaps.events);
  }

  lemma ToldTells<T>(t: Target, path: string, tr: Trace<T>)
    ensures Reports(Told(t, path, tr).events) ==
            Reports(tr.events) +
              if tr.end.Stop? && !tr.end.recorded && !Silent(t) then [Problem(path, OriginOf(t), Message.Refused)]
              else []
  {
    hide Reports;
    ToldIsRefused(path, OriginOf(t));
    ReportsAppend(tr.events, [Found(Problem(path, OriginOf(t), Message.Refused))]);
    assert tr.events + [] == tr.events;
  }

  /** No option around the table ends the read before it. */
  predicate Unwraps(s: Schema, t: Target) {
    match s
    case SOption(inner) => t.At? && !t.node.value.Null? && Unwraps(inner, t)
    case SMapped(inner, _) => Unwraps(inner, t)
    case _ => true
  }

  /** The trace tells of what `core` tells of, and at most of one refusal more, at `path`. */
  predicate AddsRefusal(t: Target, path: string, tr: Trace<Decoded>, core: seq<Problem>) {
    var told := Reports(tr.events);
    told == core || (tr.end.Stop? && tr.end.recorded && told == core + [Problem(path, OriginOf(t), Message.Refused)])
  }

  /** What stands around the table adds at most its own refusal. */
  lemma {:induction false} WrappersAdd(s: Schema, t: Target, path: string)
    requires Unwraps(s, t) && (Core(s).SMap? || Core(s).SStruct?) && !Silent(t)
    ensures AddsRefusal(t, path, Whole(s, t, path), Reports(Whole(Core(s), t, path).events))
  {
    hide Reports, WholeTable;
    if s.SOption? {
      WrappersAdd(s.inner, t, path);
      ToldTells(t, path, Whole(s.inner, t, path));
    } else if s.SMapped? {
      WrappersAdd(s.inner, t, path);
    }
  }

  lemma WholeOuter(s: Schema, t: Target, path: string)
    requires Unwraps(s, t) && (Core(s).SMap? || Core(s).SStruct?) && !Silent(t)
    ensures var core := WholeReport(Core(s), t, path);
            WholeReport(s, t, path) == core ||
              WholeReport(s, t, path) == core + [Problem(path, OriginOf(t), Message.Refused)]
  {
    hide Reports, WholeTable, Whole;
    WrappersAdd(s, t, path);
    TableRecords(Core(s), t, path);
    assert Reports(Whole(s, t, path).events) + [] == Reports(Whole(s, t, path).events);
    assert Reports(Whole(Core(s), t, path).events) + [] == Reports(Whole(Core(s), t, path).events);
  }

  lemma TableRecords(s: Schema, t: Target, path: string)
    requires s.SMap? || s.SStruct?
    ensures var end := Whole(s, t, path).end; end.Stop? ==> end.recorded
  {
  }

  lemma {:induction false} CoreUnique(s: Schema, t: Target)
    requires Unwraps(s, t) && IsTable(Core(s)) && UniqueRead(s, t)
    ensures UniqueTable(Core(s), t)
  {
    hide UniqueTable;
    if s.SOption? {
      CoreUnique(s.inner, t);
    } else if s.SMapped? {
      CoreUnique(s.inner, t);
    }
  }

  lemma {:induction false} CoreNameable(s: Schema, t: Target)
    requires Unwraps(s, t) && IsTable(Core(s)) && Nameable(s, t)
    ensures NameableTable(Core(s), t)
  {
    hide NameableTable;
    if s.SOption? {
      CoreNameable(s.inner, t);
    } else if s.SMapped? {
      CoreNameable(s.inner, t);
    }
  }

  /** A missing field is in the whole report if it is told of after the sections; with clean keys, only then. */
  lemma MissingInWhole(s: Schema, t: Target, path: string, j: nat)
    requires s.SStruct? && j < |s.fields| && Lacks(s.fields[j], t) && !Silent(t) && (t.At? ==> t.node.value.Table?)
    ensures var p, gaps :=
              MissingAt(t, path, s.fields[j]), WalkGaps(s, t, path, 0, SectionValues(s, t, path, 0, map[]));
            && (p in Reports(gaps.events) ==> p in WholeReport(s, t, path))
            && (NameableTable(s, t) && p in WholeReport(s, t, path) ==> p in Reports(gaps.events))
  {
    hide WalkGaps, SectionEvents, SectionValues, Reports, NameableTable, CleanKey, Beneath, WholeReport;
    WholeParts(s, t, path);
    if NameableTable(s, t) {
      var p := MissingAt(t, path, s.fields[j]);
      NameableField(s, t, j);
      assert NotFrom(EntriesOf(t), 0, s.fields[j].name);
      SectionsElsewhere(s, t, path, 0, s.fields[j].name);
      AtItself(p.path);
      assert p !in Reports(SectionEvents(s, t, path, 0));
    }
  }

  lemma AtItself(path: string)
    ensures Beneath(path, path)
  {
  }

  lemma ToldIsRefused(path: string, origin: Option<Origin>)
    ensures Reports([Found(Problem(path, origin, Message.Refused))]) == [Problem(path, origin, Message.Refused)]
  {
    assert [Found(Problem(path, origin, Message.Refused))][1..] == [];
  }

  /**
   * Of the driver's report: a missing top-level field is in it when nothing declared before it
   * blocks; where keys are clean, exactly then.
   */
  lemma MissingFieldReported(s: Schema, t: Target, path: string, whereabouts: string -> Option<Origin>, j: nat)
    requires Core(s).SStruct? && Unwraps(s, t) && CleanRead(s, t, path) && Needed(s, t, path) <= MAX_PASSES
    requires !Silent(t) && (t.At? ==> t.node.value.Table?) && j < |Core(s).fields| && Lacks(Core(s).fields[j], t)
    ensures var core, told := Core(s), Driven(ReadingOf(s, t, path, whereabouts), START, 0).problems;
            var p, free := MissingAt(t, path, core.fields[j]),
              NoneBlocks(core, t, path, 0, j, SectionValues(core, t, path, 0, map[]));
            (free ==> p in told) && (Nameable(s, t) && p in told ==> free)
  {
    hide Driven, Needed, WholeReport, WalkGaps, Lacks, NoneBlocks, SectionValues, Whole, UniqueRead, UniqueTable,
      Apart, Places, Nameable, NameableTable, Unwraps;
    var core := Core(s);
    var f := core.fields[j];
    var p := MissingAt(t, path, f);
    SectionReport(s, t, path, whereabouts);
    SameMembers(Driven(ReadingOf(s, t, path, whereabouts), START, 0).problems, WholeReport(s, t, path), p);
    WholeOuter(s, t, path);
    MissingInWhole(core, t, path, j);
    if Nameable(s, t) {
      CoreNameable(s, t);
    }
    assert f.name !in SectionValues(core, t, path, 0, map[]) by {
      LacksSays(f, t);
      OnlyEntries(core, t, path, 0, map[], f.name);
    }
    assert UniqueNames(core.fields) by {
      CoreUnique(s, t);
      NamesInTable(core, t);
    }
    MissingFieldTold(core, t, path, 0, j, SectionValues(core, t, path, 0, map[]));
  }

  lemma SameMembers<T>(a: seq<T>, b: seq<T>, p: T)
    requires multiset(a) == multiset(b)
    ensures p in a <==> p in b
  {
    assert p in a <==> p in multiset(a);
    assert p in b <==> p in multiset(b);
  }

  lemma NamesInTable(s: Schema, t: Target)
    requires s.SStruct? && UniqueTable(s, t)
    ensures UniqueNames(s.fields)
  {
    hide UniqueRead;
  }

  /** Only entries have values before anything is supplied. */
  lemma {:induction false} OnlyEntries(s: Schema, t: Target, path: string, i: nat, got: map<string, Decoded>,
      name: string)
    requires i <= |EntriesOf(t)| && NotFrom(EntriesOf(t), i, name) && name !in got
    ensures name !in SectionValues(s, t, path, i, got)
    decreases |EntriesOf(t)| - i
  {
    hide SectionTrace;
    if i < |EntriesOf(t)| {
      OnlyEntries(s, t, path, i + 1,
        if ReadsAt(s, t, i) && SectionTrace(s, t, path, i).end.Done?
        then got[EntriesOf(t)[i].key := SectionTrace(s, t, path, i).end.value]
        else got, name);
    }
  }
}
