/** What a report holds when leaf types refuse. */
module RefusalLaws {
  // A section tells of at most one refusal, what stops a read is always told of, and no section's problems
  // are lost to another's refusal.

  import opened Options
  import opened Trees
  import opened Schemas
  import opened Reader
  import opened Walks
  import opened Events
  import opened CleanReads
  import opened Simulation
  import opened Sections
  import opened Drivers
  import opened ReportLaws

  // ---- At most one refusal ----

  function RefusedIn(problems: seq<Problem>): nat {
    if problems == [] then 0 else (if problems[0].message.Refused? then 1 else 0) + RefusedIn(problems[1..])
  }

  lemma {:induction false} RefusedAppend(a: seq<Problem>, b: seq<Problem>)
    ensures RefusedIn(a + b) == RefusedIn(a) + RefusedIn(b)
  {
    if a == [] {
      assert a + b == b;
    } else {
      assert (a + b)[1..] == a[1..] + b;
      RefusedAppend(a[1..], b);
    }
  }

  /** At most one refusal, and none unless the trace has stopped and says so. */
  predicate AtMostOne<T>(tr: Trace<T>) {
    RefusedIn(Reports(tr.events)) <= if tr.end.Stop? && tr.end.recorded then 1 else 0
  }

  lemma OneBefore<T>(events: seq<Event>, tr: Trace<T>)
    requires RefusedIn(Reports(events)) == 0 && AtMostOne(tr)
    ensures AtMostOne(Before(events, tr))
  {
    hide Founds, RefusedIn, Reports;
    ReportsAppend(events, tr.events);
    RefusedAppend(Reports(events), Reports(tr.events));
  }

  lemma OneTold<T>(t: Target, path: string, tr: Trace<T>)
    requires AtMostOne(tr)
    ensures AtMostOne(Told(t, path, tr))
  {
    hide RefusedIn, Reports;
    if tr.end.Stop? {
      var told := if tr.end.recorded || Silent(t) then [] else [Found(Problem(path, OriginOf(t), Refused))];
      OneFound(Problem(path, OriginOf(t), Refused));
      NoEvents();
      ReportsAppend(tr.events, told);
      RefusedAppend(Reports(tr.events), Reports(told));
    }
  }

  lemma OneFound(problem: Problem)
    ensures Reports([Found(problem)]) == [problem] && RefusedIn([problem]) <= 1 && RefusedIn([]) == 0
  {
    assert [Found(problem)][1..] == [];
    assert [problem][1..] == [];
  }

  lemma {:induction false} NoRefusal(problems: seq<Problem>)
    requires |problems| <= 1 && (problems != [] ==> !problems[0].message.Refused?)
    ensures RefusedIn(problems) == 0 && RefusedIn(Reports(AllFound(problems))) == 0
  {
    AllFoundParts(problems);
    if |problems| == 1 {
      assert problems[1..] == [];
    }
  }

  /** A walk tells of one refusal at most: it stops there. */
  lemma {:induction false} OneRefusal(s: Schema, t: Target, path: string, skip: set<string>)
    ensures AtMostOne(Walk(s, t, path, skip))
    decreases s, Held(t), 5, 0
  {
    hide WalkSeq, WalkTable, ReadScalar;
    match s
    case SOption(inner) =>
      if t.At? && !t.node.value.Null? {
        OneRefusal(inner, t, path, skip);
        OneTold(t, path, Walk(inner, t, path, skip));
      }
    case SMapped(inner, _) => OneRefusal(inner, t, path, skip);
    case SSeq(_) => OneInSeq(s, t, path);
    case SAny =>
      if t.Absent? {
        NoRefusal(Mismatch(t, path, "a value"));
      } else if t.node.value.Array? {
        OneInSeq(s, t, path);
      } else if t.node.value.Table? {
        OneInTable(s, t, path, skip);
      }
    case SMap(_) => OneInTable(s, t, path, skip);
    case SStruct(_) => OneInTable(s, t, path, skip);
    case _ => OneInScalar(s, t, path);
  }

  lemma OneInScalar(s: Schema, t: Target, path: string)
    requires IsScalarSchema(s)
    ensures AtMostOne(Walk(s, t, path, {}))
  {
    var r := ReadScalar(s, t, path);
    AllFoundParts(r.problems);
    if r.problems != [] {
      assert r.problems[1..] == [];
    }
  }

  lemma {:induction false} OneInSeq(s: Schema, t: Target, path: string)
    requires s.SSeq? || (s.SAny? && t.At? && t.node.value.Array?)
    ensures AtMostOne(WalkSeq(s, t, path))
    decreases s, Held(t), 1, 0
  {
    if t.At? && t.node.value.Array? {
      OneInItems(s, t, path, 0, []);
      OneTold(t, path, WalkItems(s, t, path, 0, []));
    } else {
      NoRefusal(Mismatch(t, path, "an array"));
    }
  }

  lemma {:induction false} OneInItems(s: Schema, t: Target, path: string, i: nat, got: seq<Decoded>)
    requires s.SSeq? || s.SAny?
    requires t.At? && t.node.value.Array? && i <= |t.node.value.items|
    ensures AtMostOne(WalkItems(s, t, path, i, got))
    decreases s, Held(t), 0, |t.node.value.items| - i
  {
    hide Walk, Founds, Reports, RefusedIn;
    NoneYet();
    if i < |t.node.value.items| {
      var item := At(t.node.value.items[i]);
      OneRefusal(ElementOf(s), item, JoinIndex(path, i), {});
      var tr := Walk(ElementOf(s), item, JoinIndex(path, i), {});
      if tr.end.Done? {
        OneInItems(s, t, path, i + 1, got + [tr.end.value]);
        OneBefore(tr.events, WalkItems(s, t, path, i + 1, got + [tr.end.value]));
      }
    }
  }

  lemma NoneYet()
    ensures Reports([]) == [] && RefusedIn([]) == 0
  {
  }

  lemma {:induction false} OneInEntry(s: Schema, t: Target, path: string)
    ensures AtMostOne(WalkEntry(s, t, path))
    decreases s, Held(t), 6, 0
  {
    hide Walk, Reports, RefusedIn;
    OneRefusal(s, t, path, {});
    OneTold(t, path, Walk(s, t, path, {}));
  }

  lemma {:induction false} OneInEntries(s: Schema, t: Target, path: string, skip: set<string>, i: nat,
      got: map<string, Decoded>)
    requires IsTable(s) && i <= |EntriesOf(t)|
    ensures AtMostOne(WalkEntries(s, t, path, skip, i, got))
    decreases s, Held(t), 3, |EntriesOf(t)| - i
  {
    hide WalkEntry, Founds, Reports, RefusedIn;
    NoneYet();
    if i < |EntriesOf(t)| {
      var key := EntriesOf(t)[i].key;
      if JoinKey(path, key) in skip || !Reads(s, key) {
        OneInEntries(s, t, path, skip, i + 1, got);
      } else if !Taken(s, key, got) {
        OneInEntry(Under(s, key), At(EntriesOf(t)[i].node), JoinKey(path, key));
        var tr := WalkEntry(Under(s, key), At(EntriesOf(t)[i].node), JoinKey(path, key));
        if tr.end.Done? {
          OneInEntries(s, t, path, skip, i + 1, got[key := tr.end.value]);
          OneBefore(tr.events, WalkEntries(s, t, path, skip, i + 1, got[key := tr.end.value]));
        }
      }
    }
  }

  lemma {:induction false} OneInSupplied(f: Field, t: Target, path: string)
    ensures AtMostOne(WalkSupplied(f, t, path))
    decreases f.schema, Node(Null, Default), 7, 0
  {
    hide WalkEntry, Founds;
    var fill := [Fill(NewPatch(Patch(path, f.name), MissingProblem(t, path, f.name)))];
    OneInEntry(f.schema, Absent(true, OriginOf(t)), JoinKey(path, f.name));
    assert fill[1..] == [];
    var problems := Listed(MissingProblem(t, path, f.name));
    assert Reports(fill) == problems && (problems != [] ==> problems[1..] == []);
    OneBefore(fill, WalkEntry(f.schema, Absent(true, OriginOf(t)), JoinKey(path, f.name)));
  }

  lemma {:induction false} OneInGaps(s: Schema, t: Target, path: string, j: nat, got: map<string, Decoded>)
    requires IsTable(s) && j <= |FieldsOf(s)|
    ensures AtMostOne(WalkGaps(s, t, path, j, got))
    decreases s, Held(t), 3, |FieldsOf(s)| - j
  {
    hide WalkSupplied, Founds, Reports, RefusedIn;
    NoneYet();
    if j < |FieldsOf(s)| {
      var f := FieldsOf(s)[j];
      if f.name in got || GivenFor(f).Value? {
        OneInGaps(s, t, path, j + 1, got);
      } else if GivenFor(f).Required? && !HasKey(EntriesOf(t), f.name) {
        OneInSupplied(f, t, path);
        var tr := WalkSupplied(f, t, path);
        if tr.end.Done? {
          OneInGaps(s, t, path, j + 1, got[f.name := tr.end.value]);
          OneBefore(tr.events, WalkGaps(s, t, path, j + 1, got[f.name := tr.end.value]));
        }
      }
    }
  }

  lemma {:induction false} OneInTable(s: Schema, t: Target, path: string, skip: set<string>)
    requires IsTable(s)
    ensures AtMostOne(WalkTable(s, t, path, skip))
    decreases s, Held(t), 4, 0
  {
    hide WalkEntries, WalkGaps, Founds, Reports, RefusedIn, AllFound;
    var entries := WalkEntries(s, t, path, skip, 0, map[]);
    OneInEntries(s, t, path, skip, 0, map[]);
    if entries.end.Done? {
      OneInGaps(s, t, path, 0, entries.end.value);
      OneBefore(entries.events, WalkGaps(s, t, path, 0, entries.end.value));
    }
    NoRefusal(NotATable(t, path));
    var content := Before(AllFound(NotATable(t, path)), WalkRest(s, t, path, entries));
    OneBefore(AllFound(NotATable(t, path)), WalkRest(s, t, path, entries));
    OneTold(t, path, content);
  }

  // ---- What stops a read is told of ----

  /** A stop is told of, or still to be told of by whoever called for the read. */
  predicate Spoken<T>(t: Target, tr: Trace<T>) {
    tr.end.Stop? && tr.end.recorded && !Silent(t) ==> Reports(tr.events) != []
  }

  lemma SpokenTold<T>(t: Target, path: string, tr: Trace<T>)
    requires Spoken(t, tr)
    ensures Spoken(t, Told(t, path, tr))
    ensures tr.end.Stop? && !Silent(t) ==> Reports(Told(t, path, tr).events) != []
  {
    hide Reports;
    if tr.end.Stop? && !Silent(t) {
      var told := if tr.end.recorded then [] else [Found(Problem(path, OriginOf(t), Refused))];
      NoEvents();
      OneFound(Problem(path, OriginOf(t), Refused));
      ReportsAppend(tr.events, told);
    }
  }

  lemma SpokenBefore<T>(t: Target, events: seq<Event>, tr: Trace<T>)
    requires Spoken(t, tr) || Reports(events) != []
    ensures Spoken(t, Before(events, tr))
  {
    hide Reports, Founds;
    ReportsAppend(events, tr.events);
  }

  lemma {:induction false} StopIsSpoken(s: Schema, t: Target, path: string)
    ensures Spoken(t, Walk(s, t, path, {}))
    decreases s, Held(t), 5, 0
  {
    match s
    case SOption(inner) =>
      if t.At? && !t.node.value.Null? {
        StopIsSpoken(inner, t, path);
        SpokenTold(t, path, Walk(inner, t, path, {}));
      }
    case SMapped(inner, _) => StopIsSpoken(inner, t, path);
    case SSeq(_) => SeqSpoken(s, t, path);
    case SAny =>
      if t.At? && t.node.value.Array? {
        SeqSpoken(s, t, path);
      } else if t.At? && t.node.value.Table? {
        TableSpoken(s, t, path);
      }
    case SMap(_) => TableSpoken(s, t, path);
    case SStruct(_) => TableSpoken(s, t, path);
    case _ => AllFoundParts(ReadScalar(s, t, path).problems);
  }

  lemma {:induction false} SeqSpoken(s: Schema, t: Target, path: string)
    requires s.SSeq? || (s.SAny? && t.At? && t.node.value.Array?)
    ensures Spoken(t, WalkSeq(s, t, path))
    decreases s, Held(t), 1, 0
  {
    if t.At? && t.node.value.Array? {
      ItemsSpoken(s, t, path, 0, []);
      SpokenTold(t, path, WalkItems(s, t, path, 0, []));
    }
  }

  lemma {:induction false} ItemsSpoken(s: Schema, t: Target, path: string, i: nat, got: seq<Decoded>)
    requires s.SSeq? || s.SAny?
    requires t.At? && t.node.value.Array? && i <= |t.node.value.items|
    ensures Spoken(t, WalkItems(s, t, path, i, got))
    decreases s, Held(t), 0, |t.node.value.items| - i
  {
    hide Walk, Founds, Reports;
    if i < |t.node.value.items| {
      var item := At(t.node.value.items[i]);
      StopIsSpoken(ElementOf(s), item, JoinIndex(path, i));
      var tr := Walk(ElementOf(s), item, JoinIndex(path, i), {});
      if tr.end.Done? {
        ItemsSpoken(s, t, path, i + 1, got + [tr.end.value]);
        SpokenBefore(t, tr.events, WalkItems(s, t, path, i + 1, got + [tr.end.value]));
      }
    }
  }

  /** The value under a key that stops the read is told of at once. */
  lemma {:induction false} EntrySpoken(s: Schema, t: Target, path: string)
    ensures WalkEntry(s, t, path).end.Stop? && !Silent(t) ==> Reports(WalkEntry(s, t, path).events) != []
    decreases s, Held(t), 6, 0
  {
    hide Walk, Reports;
    StopIsSpoken(s, t, path);
    SpokenTold(t, path, Walk(s, t, path, {}));
  }

  lemma {:induction false} EntriesSpoken(s: Schema, t: Target, path: string, i: nat, got: map<string, Decoded>)
    requires IsTable(s) && i <= |EntriesOf(t)|
    ensures Spoken(t, WalkEntries(s, t, path, {}, i, got))
    ensures var end := WalkEntries(s, t, path, {}, i, got).end;
            end.Done? ==>
              && got.Keys <= end.value.Keys
              && forall a | i <= a < |EntriesOf(t)| && Reads(s, EntriesOf(t)[a].key) :: EntriesOf(t)[a].key in end.value
    decreases s, Held(t), 3, |EntriesOf(t)| - i
  {
    hide WalkEntry, Founds, Reports;
    if i < |EntriesOf(t)| {
      var key := EntriesOf(t)[i].key;
      if !Reads(s, key) {
        EntriesSpoken(s, t, path, i + 1, got);
      } else if !Taken(s, key, got) {
        EntrySpoken(Under(s, key), At(EntriesOf(t)[i].node), JoinKey(path, key));
        var tr := WalkEntry(Under(s, key), At(EntriesOf(t)[i].node), JoinKey(path, key));
        if tr.end.Done? {
          EntriesSpoken(s, t, path, i + 1, got[key := tr.end.value]);
          SpokenBefore(t, tr.events, WalkEntries(s, t, path, {}, i + 1, got[key := tr.end.value]));
        }
      }
    }
  }

  /** Every required field that is an entry has a value. */
  predicate Present(s: Schema, t: Target, got: map<string, Decoded>) {
    forall j | 0 <= j < |FieldsOf(s)| && HasKey(EntriesOf(t), FieldsOf(s)[j].name) :: FieldsOf(s)[j].name in got
  }

  lemma AllPresent(s: Schema, t: Target, got: map<string, Decoded>)
    requires IsTable(s) &&
             forall a | 0 <= a < |EntriesOf(t)| && Reads(s, EntriesOf(t)[a].key) :: EntriesOf(t)[a].key in got
    ensures Present(s, t, got)
  {
    forall j | 0 <= j < |FieldsOf(s)| && HasKey(EntriesOf(t), FieldsOf(s)[j].name)
      ensures FieldsOf(s)[j].name in got
    {
      var a := FindKey(EntriesOf(t), FieldsOf(s)[j].name);
      assert EntriesOf(t)[a].key == FieldsOf(s)[j].name && FindField(FieldsOf(s), FieldsOf(s)[j].name) <= j;
    }
  }

  /** The fields of a table, or of a place where there is none, are told of as missing. */
  lemma {:induction false} GapsSpoken(s: Schema, t: Target, path: string, j: nat, got: map<string, Decoded>)
    requires IsTable(s) && j <= |FieldsOf(s)| && Present(s, t, got)
    requires t.At? ==> t.node.value.Table?
    ensures Spoken(t, WalkGaps(s, t, path, j, got))
    decreases |FieldsOf(s)| - j
  {
    hide WalkSupplied, Founds, Reports;
    if j < |FieldsOf(s)| {
      var f := FieldsOf(s)[j];
      if f.name in got || GivenFor(f).Value? {
        GapsSpoken(s, t, path, j + 1, got);
      } else if GivenFor(f).Required? {
        SuppliedSpoken(f, t, path);
        var tr := WalkSupplied(f, t, path);
        if tr.end.Done? {
          GapsSpoken(s, t, path, j + 1, got[f.name := tr.end.value]);
          SpokenBefore(t, tr.events, WalkGaps(s, t, path, j + 1, got[f.name := tr.end.value]));
        }
      }
    }
  }

  lemma SuppliedSpoken(f: Field, t: Target, path: string)
    requires t.At? ==> t.node.value.Table?
    ensures !Silent(t) ==> Reports(WalkSupplied(f, t, path).events) != []
  {
    hide WalkEntry, Founds;
    var fill := [Fill(NewPatch(Patch(path, f.name), MissingProblem(t, path, f.name)))];
    ReportsAppend(fill, WalkEntry(f.schema, Absent(true, OriginOf(t)), JoinKey(path, f.name)).events);
  }

  lemma {:induction false} TableSpoken(s: Schema, t: Target, path: string)
    requires IsTable(s)
    ensures Spoken(t, WalkTable(s, t, path, {}))
    decreases s, Held(t), 4, 0
  {
    hide WalkEntries, WalkGaps, Founds, Reports, AllFound, Present;
    var entries := WalkEntries(s, t, path, {}, 0, map[]);
    EntriesSpoken(s, t, path, 0, map[]);
    var first := AllFound(NotATable(t, path));
    AllFoundParts(NotATable(t, path));
    if entries.end.Done? && (t.At? ==> t.node.value.Table?) {
      AllPresent(s, t, entries.end.value);
      GapsSpoken(s, t, path, 0, entries.end.value);
      SpokenBefore(t, entries.events, WalkGaps(s, t, path, 0, entries.end.value));
    }
    var content := Before(first, WalkRest(s, t, path, entries));
    SpokenBefore(t, first, WalkRest(s, t, path, entries));
    SpokenTold(t, path, content);
  }

  // ---- The same of the whole read ----

  lemma SectionSpoken(s: Schema, t: Target, path: string, i: nat)
    requires ReadsAt(s, t, i)
    ensures SectionTrace(s, t, path, i).end.Stop? ==> Reports(SectionTrace(s, t, path, i).events) != []
  {
    hide WalkEntry, Reports;
    EntrySpoken(Under(s, EntriesOf(t)[i].key), At(EntriesOf(t)[i].node), PathAt(t, path, i));
  }

  /** A section with no value told of why. */
  lemma {:induction false} SectionsSpoken(s: Schema, t: Target, path: string, i: nat, got: map<string, Decoded>)
    requires IsTable(s) && i <= |EntriesOf(t)|
    ensures got.Keys <= SectionValues(s, t, path, i, got).Keys
    ensures
      || Reports(SectionEvents(s, t, path, i)) != []
      || forall a | i <= a < |EntriesOf(t)| && Reads(s, EntriesOf(t)[a].key) ::
        EntriesOf(t)[a].key in SectionValues(s, t, path, i, got)
    decreases |EntriesOf(t)| - i
  {
    hide Reports, SectionTrace;
    if i < |EntriesOf(t)| {
      if ReadsAt(s, t, i) {
        var tr := SectionTrace(s, t, path, i);
        SectionSpoken(s, t, path, i);
        ReportsAppend(tr.events, SectionEvents(s, t, path, i + 1));
        SectionsSpoken(s, t, path, i + 1, if tr.end.Done? then got[EntriesOf(t)[i].key := tr.end.value] else got);
      } else {
        assert [] + SectionEvents(s, t, path, i + 1) == SectionEvents(s, t, path, i + 1);
        SectionsSpoken(s, t, path, i + 1, got);
      }
    }
  }

  lemma WholeTableSpoken(s: Schema, t: Target, path: string)
    requires IsTable(s)
    ensures Spoken(t, WholeTable(s, t, path))
  {
    hide SectionEvents, SectionValues, WalkGaps, Founds, Reports, AllFound, Present;
    var first, sections := AllFound(NotATable(t, path)), SectionEvents(s, t, path, 0);
    var values := SectionValues(s, t, path, 0, map[]);
    SectionsSpoken(s, t, path, 0, map[]);
    AllFoundParts(NotATable(t, path));
    ReportsAppend(first, sections);
    if Reports(first + sections) == [] {
      AllPresent(s, t, values);
      GapsSpoken(s, t, path, 0, values);
    }
    SpokenBefore(t, first + sections, WalkGaps(s, t, path, 0, values));
    SpokenTold(t, path, Before(first + sections, WalkGaps(s, t, path, 0, values)));
  }

  lemma {:induction false} WholeSpoken(s: Schema, t: Target, path: string)
    ensures Spoken(t, Whole(s, t, path))
  {
    hide Walk, WholeTable;
    match s
    case SOption(inner) =>
      if t.At? && !t.node.value.Null? {
        WholeSpoken(inner, t, path);
        SpokenTold(t, path, Whole(inner, t, path));
      }
    case SMapped(inner, _) => WholeSpoken(inner, t, path);
    case SMap(_) => WholeTableSpoken(s, t, path);
    case SStruct(_) => WholeTableSpoken(s, t, path);
    case SAny =>
      if t.At? && t.node.value.Table? {
        WholeTableSpoken(s, t, path);
      } else {
        StopIsSpoken(s, t, path);
      }
    case _ => StopIsSpoken(s, t, path);
  }

  /** A read with nothing to report ends with a value. */
  lemma SilenceIsSuccess(s: Schema, t: Target, path: string)
    requires !Silent(t) && WholeReport(s, t, path) == []
    ensures Whole(s, t, path).end.Done?
  {
    hide Whole;
    WholeSpoken(s, t, path);
  }

  // ---- No section's problems are lost ----

  /** What the section at place `i` tells of, alone. */
  function SectionReports(s: Schema, t: Target, path: string, i: nat): seq<Problem>
    requires ReadsAt(Core(s), t, i)
  {
    Reports(SectionTrace(Core(s), t, path, i).events)
  }

  lemma {:induction false} SectionInAll(s: Schema, t: Target, path: string, i: nat, k: nat)
    requires k <= i && ReadsAt(s, t, i)
    ensures multiset(Reports(SectionTrace(s, t, path, i).events)) <= multiset(Reports(SectionEvents(s, t, path, k)))
    decreases i - k
  {
    hide SectionTrace, Reports;
    var first := if ReadsAt(s, t, k) then SectionTrace(s, t, path, k).events else [];
    Appended(first, SectionEvents(s, t, path, k + 1));
    if k < i {
      SectionInAll(s, t, path, i, k + 1);
    }
  }

  lemma {:induction false} SectionInWhole(s: Schema, t: Target, path: string, i: nat)
    requires IsTable(Core(s)) && ReadsAt(Core(s), t, i)
    ensures multiset(SectionReports(s, t, path, i)) <= multiset(Reports(Whole(s, t, path).events))
  {
    hide SectionTrace, Reports, WholeTable;
    if s.SOption? {
      SectionInWhole(s.inner, t, path, i);
      ReportsTold(t, path, Whole(s.inner, t, path));
    } else if s.SMapped? {
      SectionInWhole(s.inner, t, path, i);
    } else {
      assert Whole(s, t, path) == WholeTable(s, t, path);
      SectionInTable(s, t, path, i);
    }
  }

  lemma ReportsTold<T>(t: Target, path: string, tr: Trace<T>)
    ensures multiset(Reports(tr.events)) <= multiset(Reports(Told(t, path, tr).events))
  {
    hide Reports;
    if tr.end.Stop? {
      ReportsAppend(tr.events,
        if tr.end.recorded || Silent(t) then [] else [Found(Problem(path, OriginOf(t), Refused))]);
    }
  }

  lemma SectionInTable(s: Schema, t: Target, path: string, i: nat)
    requires IsTable(s) && ReadsAt(s, t, i)
    ensures multiset(Reports(SectionTrace(s, t, path, i).events)) <= multiset(Reports(WholeTable(s, t, path).events))
  {
    hide SectionTrace, Reports, Founds, SectionEvents, SectionValues, WalkGaps, AllFound;
    var first, sections := AllFound(NotATable(t, path)), SectionEvents(s, t, path, 0);
    var gaps := WalkGaps(s, t, path, 0, SectionValues(s, t, path, 0, map[]));
    SectionInAll(s, t, path, i, 0);
    Appended(first, sections);
    Appended(first + sections, gaps.events);
    ReportsTold(t, path, Before(first + sections, gaps));
  }

  /**
   * Whatever the other sections refuse, the report holds every problem of each section present in
   * the tree, walked alone, and of each at most one refusal.
   */
  lemma NoSectionIsLost(s: Schema, t: Target, path: string, whereabouts: string -> Option<Origin>, i: nat)
    requires CleanRead(s, t, path) && Needed(s, t, path) <= MAX_PASSES
    requires IsTable(Core(s)) && ReadsAt(Core(s), t, i)
    ensures multiset(SectionReports(s, t, path, i)) <= multiset(Driven(ReadingOf(s, t, path, whereabouts), START,
            0).problems)
    ensures RefusedIn(SectionReports(s, t, path, i)) <= 1
  {
    hide Whole, Driven, CleanRead, Needed, Reports, Walk, RefusedIn;
    SectionReport(s, t, path, whereabouts);
    SectionInWhole(s, t, path, i);
    OneInEntry(Under(Core(s), EntriesOf(t)[i].key), At(EntriesOf(t)[i].node), PathAt(t, path, i));
  }
}
