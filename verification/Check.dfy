/** A one-pass checker, and the driver that reports what it does. */
module Checks {
  import opened Options
  import opened Trees
  import opened Schemas
  import opened Reader
  import opened Walks
  import opened PathOrder
  import opened Events
  import opened CleanReads
  import opened CleanKeys
  import opened Simulation
  import opened Sections
  import opened Drivers
  import opened ReportLaws

  /** Types whose placeholder is always taken: no leaf type with a refusal of its own, and none that maps its input. */
  predicate Plain(s: Schema) {
    match s
    case SLeaf(_) => false
    case SMapped(_, _) => false
    case SOption(inner) => Plain(inner)
    case SSeq(element) => Plain(element)
    case SMap(element) => Plain(element)
    case SStruct(fields) => forall i | 0 <= i < |fields| :: Plain(fields[i].schema)
    case _ => true
  }

  // ---- The checker ----

  /** Every problem of `t` read as `s`: one for each value of the wrong type, one for each topmost missing field. */
  function Check(s: Schema, t: Target, path: string): seq<Problem>
    decreases s, Held(t), 1, 0
  {
    match s
    case SOption(inner) => if t.Absent? || t.node.value.Null? then [] else Check(inner, t, path)
    case SMapped(inner, _) => Check(inner, t, path)
    case SSeq(element) =>
      if t.At? && t.node.value.Array? then CheckItems(element, t.node, path, 0) else Mismatch(t, path, "an array")
    case SAny => if t.Absent? then Mismatch(t, path, "a value") else []
    case SMap(_) => NotATable(t, path) + CheckEntries(s, t, path, 0)
    case SStruct(fields) => NotATable(t, path) + CheckEntries(s, t, path, 0) + MissingFrom(fields, t, path, 0)
    case _ => ReadScalar(s, t, path).problems
  }

  function CheckItems(element: Schema, node: Node, path: string, i: nat): seq<Problem>
    requires node.value.Array? && i <= |node.value.items|
    decreases element, node, 2, |node.value.items| - i
  {
    if i == |node.value.items| then []
    else Check(element, At(node.value.items[i]), JoinIndex(path, i)) + CheckItems(element, node, path, i + 1)
  }

  function CheckEntries(s: Schema, t: Target, path: string, i: nat): seq<Problem>
    requires (s.SMap? || s.SStruct?) && i <= |EntriesOf(t)|
    decreases s, Held(t), 0, |EntriesOf(t)| - i
  {
    if i == |EntriesOf(t)| then []
    else
      var key := EntriesOf(t)[i].key;
      (if Reads(s, key) then Check(Under(s, key), At(EntriesOf(t)[i].node), JoinKey(path, key)) else [])
      + CheckEntries(s, t, path, i + 1)
  }

  function MissingFrom(fields: seq<Field>, t: Target, path: string, j: nat): seq<Problem>
    requires j <= |fields|
    decreases |fields| - j
  {
    if j == |fields| then []
    else
      (if Lacks(fields[j], t) then Listed(MissingProblem(t, path, fields[j].name)) else []) +
      MissingFrom(fields, t, path, j + 1)
  }

  // ---- How many fields have to be supplied ----

  /** The required fields missing from `t` read as `s`, those inside what is itself missing included. */
  function Lacking(s: Schema, t: Target): nat
    decreases s, Held(t), 1, 0
  {
    match s
    case SOption(inner) => if t.Absent? || t.node.value.Null? then 0 else Lacking(inner, t)
    case SMapped(inner, _) => Lacking(inner, t)
    case SSeq(element) => if t.At? && t.node.value.Array? then LackingItems(element, t.node, 0) else 0
    case SMap(_) => LackingEntries(s, t, 0)
    case SStruct(fields) => LackingEntries(s, t, 0) + LackingFields(s, t, 0)
    case _ => 0
  }

  function LackingItems(element: Schema, node: Node, i: nat): nat
    requires node.value.Array? && i <= |node.value.items|
    decreases element, node, 2, |node.value.items| - i
  {
    if i == |node.value.items| then 0
    else Lacking(element, At(node.value.items[i])) + LackingItems(element, node, i + 1)
  }

  function LackingEntries(s: Schema, t: Target, i: nat): nat
    requires (s.SMap? || s.SStruct?) && i <= |EntriesOf(t)|
    decreases s, Held(t), 0, |EntriesOf(t)| - i
  {
    if i == |EntriesOf(t)| then 0
    else
      var key := EntriesOf(t)[i].key;
      (if Reads(s, key) then Lacking(Under(s, key), At(EntriesOf(t)[i].node)) else 0) + LackingEntries(s, t, i + 1)
  }

  function LackingFields(s: Schema, t: Target, j: nat): nat
    requires s.SStruct? && j <= |s.fields|
    decreases s, Held(t), 0, |s.fields| - j
  {
    if j == |s.fields| then 0
    else
      (if Lacks(s.fields[j], t) then 1 + Lacking(s.fields[j].schema, Absent(true, OriginOf(t))) else 0) +
      LackingFields(s, t, j + 1)
  }

  // ---- The walk of a plain type is the checker ----

  /** A walk that ends with a value, tells of `problems` and supplies `lacking` fields. */
  predicate Says<T>(tr: Trace<T>, problems: seq<Problem>, lacking: nat) {
    tr.end.Done? && Reports(tr.events) == problems && |Fills(tr.events)| == lacking
  }

  lemma SaysBefore<T>(events: seq<Event>, tr: Trace<T>, problems: seq<Problem>, lacking: nat)
    requires Says(tr, problems, lacking)
    ensures Says(Before(events, tr), Reports(events) + problems, |Fills(events)| + lacking)
  {
    hide Founds, Reports, Fills;
    ReportsAppend(events, tr.events);
    FillsAppend(events, tr.events);
  }

  lemma SaysAfter<T, U>(part: Trace<T>, first: seq<Problem>, one: nat, rest: Trace<U>, problems: seq<Problem>,
      lacking: nat)
    requires Says(part, first, one) && Says(rest, problems, lacking)
    ensures part.end.Done? && Says(Before(part.events, rest), first + problems, one + lacking)
  {
    hide Reports, Fills, Before;
    SaysBefore(part.events, rest, problems, lacking);
  }

  lemma SaysDone<T>(tr: Trace<T>, problems: seq<Problem>, lacking: nat)
    requires Says(tr, problems, lacking)
    ensures tr.end.Done?
  {
  }

  lemma SaysFound<T>(problems: seq<Problem>, value: T)
    ensures Says(Trace(AllFound(problems), Done(value)), problems, 0)
  {
    AllFoundParts(problems);
  }

  lemma {:induction false} WalkSays(s: Schema, t: Target, path: string)
    requires Plain(s) && UniqueRead(s, t)
    ensures Says(Walk(s, t, path, {}), Check(s, t, path), Lacking(s, t))
    decreases s, Held(t), 5, 0
  {
    match s
    case SOption(inner) =>
      if t.At? && !t.node.value.Null? {
        WalkSays(inner, t, path);
      }
    case SSeq(element) =>
      if t.At? && t.node.value.Array? {
        ItemsSay(s, t, path, 0, []);
      } else {
        SaysFound(Mismatch(t, path, "an array"), DSeq([]));
      }
    case SAny => AnySays(s, t, path);
    case SMap(_) => TableSays(s, t, path);
    case SStruct(_) => TableSays(s, t, path);
    case SBool => AllFoundParts(ReadScalar(s, t, path).problems);
    case SInt(_) => AllFoundParts(ReadScalar(s, t, path).problems);
    case SStr => AllFoundParts(ReadScalar(s, t, path).problems);
  }

  lemma {:induction false} ItemsSay(s: Schema, t: Target, path: string, i: nat, got: seq<Decoded>)
    requires s.SSeq? && Plain(s) && UniqueItems(s, t)
    requires t.At? && t.node.value.Array? && i <= |t.node.value.items|
    ensures Says(WalkItems(s, t, path, i, got), CheckItems(s.element, t.node, path, i),
            LackingItems(s.element, t.node, i))
    decreases s, Held(t), 0, |t.node.value.items| - i
  {
    hide Walk, UniqueRead, Check, Lacking, Founds;
    if i < |t.node.value.items| {
      var item := At(t.node.value.items[i]);
      assert ItemsOf(t)[i] == item.node;
      WalkSays(s.element, item, JoinIndex(path, i));
      var tr := Walk(s.element, item, JoinIndex(path, i), {});
      ItemsSay(s, t, path, i + 1, got + [tr.end.value]);
      SaysBefore(tr.events, WalkItems(s, t, path, i + 1, got + [tr.end.value]),
                 CheckItems(s.element, t.node, path, i + 1), LackingItems(s.element, t.node, i + 1));
    }
  }

  // ---- A read for no type finds nothing wrong ----

  lemma {:induction false} AnySays(s: Schema, t: Target, path: string)
    requires s.SAny? && UniqueRead(s, t)
    ensures Says(Walk(s, t, path, {}), Check(s, t, path), 0)
    decreases s, Held(t), 4, 1
  {
    if t.Absent? {
      SaysFound(Mismatch(t, path, "a value"), DRaw(Null));
    } else if t.node.value.Array? {
      AnyItemsSay(s, t, path, 0, []);
    } else if t.node.value.Table? {
      hide WalkEntries, UniqueTable;
      AnyEntriesSay(s, t, path, 0, map[]);
      TableFrom(s, t, path, [], 0, [], 0);
    }
  }

  lemma {:induction false} AnyItemsSay(s: Schema, t: Target, path: string, i: nat, got: seq<Decoded>)
    requires s.SAny? && UniqueItems(s, t)
    requires t.At? && t.node.value.Array? && i <= |t.node.value.items|
    ensures Says(WalkItems(s, t, path, i, got), [], 0)
    decreases s, Held(t), 0, |t.node.value.items| - i
  {
    hide Walk, UniqueRead, Founds, Reports, Fills;
    NoEvents();
    if i < |t.node.value.items| {
      var item := At(t.node.value.items[i]);
      assert ItemsOf(t)[i] == item.node;
      AnySays(SAny, item, JoinIndex(path, i));
      var tr := Walk(SAny, item, JoinIndex(path, i), {});
      AnyItemsSay(s, t, path, i + 1, got + [tr.end.value]);
      SaysBefore(tr.events, WalkItems(s, t, path, i + 1, got + [tr.end.value]), [], 0);
    }
  }

  lemma {:induction false} AnyEntriesSay(s: Schema, t: Target, path: string, i: nat, got: map<string, Decoded>)
    requires s.SAny? && UniqueTable(s, t) && t.At? && t.node.value.Table? && i <= |EntriesOf(t)|
    ensures Says(WalkEntries(s, t, path, {}, i, got), [], 0)
    decreases s, Held(t), 3, |EntriesOf(t)| - i
  {
    hide Walk, UniqueRead, UniqueTable, Founds, Reports, Fills;
    NoEvents();
    if i < |EntriesOf(t)| {
      var key, entry := EntriesOf(t)[i].key, At(EntriesOf(t)[i].node);
      UniqueEntry(s, t, i);
      AnySays(SAny, entry, JoinKey(path, key));
      var tr := WalkEntry(SAny, entry, JoinKey(path, key));
      AnyEntriesSay(s, t, path, i + 1, got[key := tr.end.value]);
      SaysBefore(tr.events, WalkEntries(s, t, path, {}, i + 1, got[key := tr.end.value]), [], 0);
    }
  }

  /** A table's walk tells of what its entries and its missing fields tell of. */
  lemma TableFrom(s: Schema, t: Target, path: string, inEntries: seq<Problem>, n: nat, missing: seq<Problem>, m: nat)
    requires IsTable(s) && Says(WalkEntries(s, t, path, {}, 0, map[]), inEntries, n)
    requires Says(WalkGaps(s, t, path, 0, WalkEntries(s, t, path, {}, 0, map[]).end.value), missing, m)
    ensures Says(WalkTable(s, t, path, {}), NotATable(t, path) + inEntries + missing, n + m)
  {
    hide WalkEntries, WalkGaps, AllFound, Founds, Reports, Fills;
    var entries := WalkEntries(s, t, path, {}, 0, map[]);
    var gaps := WalkGaps(s, t, path, 0, entries.end.value);
    SaysBefore(entries.events, gaps, missing, m);
    AllFoundParts(NotATable(t, path));
    SaysBefore(AllFound(NotATable(t, path)), Before(entries.events, gaps), inEntries + missing, n + m);
    assert NotATable(t, path) + (inEntries + missing) == NotATable(t, path) + inEntries + missing;
  }

  // ---- Tables ----

  /** Exactly the fields that are entries have a value. */
  ghost predicate Kept(s: Schema, t: Target, j: nat, got: map<string, Decoded>) {
    forall k | j <= k < |FieldsOf(s)| :: FieldsOf(s)[k].name in got <==> HasKey(EntriesOf(t), FieldsOf(s)[k].name)
  }

  /** The keys read so far. */
  ghost predicate Gathered(s: Schema, t: Target, i: nat, got: map<string, Decoded>) {
    && i <= |EntriesOf(t)|
    && (forall a | 0 <= a < i && Reads(s, EntriesOf(t)[a].key) :: EntriesOf(t)[a].key in got)
    && (forall k | k in got :: exists a | 0 <= a < i :: EntriesOf(t)[a].key == k)
  }

  lemma {:induction false} EntriesSay(s: Schema, t: Target, path: string, i: nat, got: map<string, Decoded>)
    requires (s.SMap? || s.SStruct?) && Plain(s) && UniqueTable(s, t) && i <= |EntriesOf(t)| && Gathered(s, t, i, got)
    ensures Says(WalkEntries(s, t, path, {}, i, got), CheckEntries(s, t, path, i), LackingEntries(s, t, i))
    ensures Gathered(s, t, |EntriesOf(t)|, WalkEntries(s, t, path, {}, i, got).end.value)
    decreases s, Held(t), 3, |EntriesOf(t)| - i
  {
    hide WalkEntry, UniqueRead, UniqueTable, Check, Lacking, Gathered, CleanKey, Reports, Fills;
    NoEvents();
    if i < |EntriesOf(t)| {
      var key := EntriesOf(t)[i].key;
      if !Reads(s, key) {
        GatheredNext(s, t, i, got, DNone);
        EntriesSay(s, t, path, i + 1, got);
      } else {
        UniqueEntry(s, t, i);
        NotTaken(s, t, i, got);
        var entry := At(EntriesOf(t)[i].node);
        WalkSays(Under(s, key), entry, JoinKey(path, key));
        EntrySays(Under(s, key), entry, JoinKey(path, key));
        var tr := WalkEntry(Under(s, key), entry, JoinKey(path, key));
        GatheredNext(s, t, i, got, tr.end.value);
        EntriesSay(s, t, path, i + 1, got[key := tr.end.value]);
        SaysBefore(tr.events, WalkEntries(s, t, path, {}, i + 1, got[key := tr.end.value]),
                   CheckEntries(s, t, path, i + 1), LackingEntries(s, t, i + 1));
      }
    }
  }

  lemma EntrySays(s: Schema, t: Target, path: string)
    requires Says(Walk(s, t, path, {}), Check(s, t, path), Lacking(s, t))
    ensures Says(WalkEntry(s, t, path), Check(s, t, path), Lacking(s, t))
  {
    hide Walk, Check, Lacking, Reports, Fills;
  }

  lemma GatheredNext(s: Schema, t: Target, i: nat, got: map<string, Decoded>, value: Decoded)
    requires Gathered(s, t, i, got) && i < |EntriesOf(t)|
    ensures !Reads(s, EntriesOf(t)[i].key) ==> Gathered(s, t, i + 1, got)
    ensures Gathered(s, t, i + 1, got[EntriesOf(t)[i].key := value])
  {
  }

  lemma NotTaken(s: Schema, t: Target, i: nat, got: map<string, Decoded>)
    requires IsTable(s) && UniqueTable(s, t) && Gathered(s, t, i, got) && i < |EntriesOf(t)|
    ensures EntriesOf(t)[i].key !in got
  {
    hide UniqueRead;
  }

  lemma GatheredIsKept(s: Schema, t: Target, got: map<string, Decoded>)
    requires IsTable(s) && Gathered(s, t, |EntriesOf(t)|, got)
    ensures Kept(s, t, 0, got)
  {
    forall k | 0 <= k < |FieldsOf(s)|
      ensures FieldsOf(s)[k].name in got <==> HasKey(EntriesOf(t), FieldsOf(s)[k].name)
    {
      var name := FieldsOf(s)[k].name;
      if HasKey(EntriesOf(t), name) {
        var a := FindKey(EntriesOf(t), name);
        assert EntriesOf(t)[a].key == name && FindField(FieldsOf(s), name) <= k;
      }
    }
  }

  lemma {:induction false} GapsSay(s: Schema, t: Target, path: string, j: nat, got: map<string, Decoded>)
    requires s.SStruct? && Plain(s) && UniqueTable(s, t) && j <= |s.fields| && Kept(s, t, j, got)
    ensures Says(WalkGaps(s, t, path, j, got), MissingFrom(s.fields, t, path, j), LackingFields(s, t, j))
    decreases s, Held(t), 3, |s.fields| - j
  {
    hide WalkSupplied, WalkGaps, MissingFrom, LackingFields, UniqueRead, UniqueTable, Lacking, Kept, MissingProblem,
      Says, Before;
    GapsUnfold(s, t, path, j, got);
    if j < |s.fields| {
      var f := s.fields[j];
      if !Lacks(f, t) {
        KeptNext(s, t, j, got, None);
        GapsSay(s, t, path, j + 1, got);
      } else {
        UniqueField(s, t, j);
        WalkSays(f.schema, Absent(true, OriginOf(t)), JoinKey(path, f.name));
        SuppliedSays(f, t, path);
        var tr := WalkSupplied(f, t, path);
        SaysDone(tr, Listed(MissingProblem(t, path, f.name)), 1 + Lacking(f.schema, Absent(true, OriginOf(t))));
        KeptNext(s, t, j, got, Some(tr.end.value));
        GapsSay(s, t, path, j + 1, got[f.name := tr.end.value]);
        SaysAfter(tr, Listed(MissingProblem(t, path, f.name)), 1 + Lacking(f.schema, Absent(true, OriginOf(t))),
          WalkGaps(s, t, path, j + 1, got[f.name := tr.end.value]), MissingFrom(s.fields, t, path, j + 1),
          LackingFields(s, t, j + 1));
      }
    }
  }

  lemma GapsUnfold(s: Schema, t: Target, path: string, j: nat, got: map<string, Decoded>)
    requires s.SStruct? && Plain(s) && j <= |s.fields| && Kept(s, t, j, got)
    ensures j == |s.fields| ==>
              Says(WalkGaps(s, t, path, j, got), MissingFrom(s.fields, t, path, j), LackingFields(s, t, j))
    ensures j < |s.fields| && !Lacks(s.fields[j], t) ==>
              && WalkGaps(s, t, path, j, got) == WalkGaps(s, t, path, j + 1, got)
              && MissingFrom(s.fields, t, path, j) == MissingFrom(s.fields, t, path, j + 1)
              && LackingFields(s, t, j) == LackingFields(s, t, j + 1)
    ensures j < |s.fields| && Lacks(s.fields[j], t) && WalkSupplied(s.fields[j], t, path).end.Done? ==>
              var tr := WalkSupplied(s.fields[j], t, path);
              && WalkGaps(s, t, path, j, got) ==
                Before(tr.events, WalkGaps(s, t, path, j + 1, got[s.fields[j].name := tr.end.value]))
              && MissingFrom(s.fields, t, path, j) ==
                Listed(MissingProblem(t, path, s.fields[j].name)) + MissingFrom(s.fields, t, path, j + 1)
              && LackingFields(s, t, j) ==
                1 + Lacking(s.fields[j].schema, Absent(true, OriginOf(t))) + LackingFields(s, t, j + 1)
  {
    hide WalkSupplied, Lacking, MissingProblem;
    NoEvents();
    if j < |s.fields| {
      assert Plain(s.fields[j].schema);
      assert !GivenFor(s.fields[j]).Unacceptable?;
      assert s.fields[j].name in got <==>
        HasKey(EntriesOf(t), s.fields[j].name) by { assert FieldsOf(s)[j] == s.fields[j]; }
    }
  }

  lemma KeptNext(s: Schema, t: Target, j: nat, got: map<string, Decoded>, value: Option<Decoded>)
    requires s.SStruct? && UniqueTable(s, t) && j < |s.fields| && Kept(s, t, j, got)
    ensures Kept(s, t, j + 1, if value.Some? then got[s.fields[j].name := value.value] else got)
  {
    hide UniqueRead;
    assert UniqueNames(FieldsOf(s));
  }

  /** A missing field is told of once, and nothing beneath it is. */
  lemma SuppliedSays(f: Field, t: Target, path: string)
    requires var below, at := Absent(true, OriginOf(t)), JoinKey(path, f.name);
             Says(Walk(f.schema, below, at, {}), Check(f.schema, below, at), Lacking(f.schema, below))
    ensures Says(WalkSupplied(f, t, path), Listed(MissingProblem(t, path, f.name)),
            1 + Lacking(f.schema, Absent(true, OriginOf(t))))
  {
    hide Walk, Check, Lacking, Founds;
    var below := Absent(true, OriginOf(t));
    var tr := Walk(f.schema, below, JoinKey(path, f.name), {});
    SilentWalk(f.schema, below, JoinKey(path, f.name), {});
    var fill := [Fill(NewPatch(Patch(path, f.name), MissingProblem(t, path, f.name)))];
    assert fill[1..] == [];
    assert Reports(fill) == Listed(MissingProblem(t, path, f.name));
    SaysBefore(fill, tr, [], Lacking(f.schema, below));
  }

  lemma {:induction false} TableSays(s: Schema, t: Target, path: string)
    requires (s.SMap? || s.SStruct?) && Plain(s) && UniqueTable(s, t)
    ensures Says(Walk(s, t, path, {}), Check(s, t, path), Lacking(s, t))
    decreases s, Held(t), 4, 0
  {
    hide Walk, WalkTable, WalkEntries, WalkGaps, UniqueTable, CheckEntries, LackingEntries, LackingFields, MissingFrom,
      Gathered, Reports, Fills;
    TableWalk(s, t, path, {});
    assert Gathered(s, t, 0, map[]) by { NoneGathered(s, t); }
    EntriesSay(s, t, path, 0, map[]);
    var got := WalkEntries(s, t, path, {}, 0, map[]).end.value;
    if s.SStruct? {
      GatheredIsKept(s, t, got);
      GapsSay(s, t, path, 0, got);
      TableFrom(s, t, path, CheckEntries(s, t, path, 0), LackingEntries(s, t, 0), MissingFrom(s.fields, t, path, 0),
        LackingFields(s, t, 0));
    } else {
      MapHasNoGaps(s, t, path, got);
      TableFrom(s, t, path, CheckEntries(s, t, path, 0), LackingEntries(s, t, 0), [], 0);
    }
  }

  lemma NoneGathered(s: Schema, t: Target)
    ensures Gathered(s, t, 0, map[])
  {
  }

  lemma MapHasNoGaps(s: Schema, t: Target, path: string, got: map<string, Decoded>)
    requires s.SMap?
    ensures Says(WalkGaps(s, t, path, 0, got), [], 0)
  {
  }

  // ---- The driver reports what the checker reports ----

  /**
   * For a type whose placeholders are always taken and a tree no two of whose tables print one path: the
   * driver's report is the checker's, unless more fields have to be supplied than the passes allow.
   */
  lemma PlainReport(s: Schema, t: Target, path: string, whereabouts: string -> Option<Origin>)
    requires Plain(s) && CleanRead(s, t, path)
    ensures var report := Driven(ReadingOf(s, t, path, whereabouts), START, 0);
            if Lacking(s, t) <= MAX_PASSES then
              report.settled && report.value.Some? && multiset(report.problems) == multiset(Check(s, t, path))
            else
              !report.settled && report.value.None? && multiset(report.problems) <= multiset(Check(s, t, path))
  {
    hide Whole, UniqueRead, Apart, Places, Plain, Check, Lacking, Driven, Needed, WholeReport;
    PlainWhole(s, t, path);
    SectionReport(s, t, path, whereabouts);
  }

  lemma PlainWhole(s: Schema, t: Target, path: string)
    requires Plain(s) && UniqueRead(s, t)
    ensures multiset(WholeReport(s, t, path)) == multiset(Check(s, t, path))
    ensures Needed(s, t, path) == Lacking(s, t)
    ensures Whole(s, t, path).end.Done?
  {
    hide Walk, Whole, UniqueRead, Plain, Check, Lacking, Reports, Fills, HeldEvents, Asides, Refusals, StopsInSection,
      AllRefuse, SectionTrace;
    WalkSays(s, t, path);
    if StopsInSection(s, t, path, {}) {
      var sp := Advance(s, t, path, {});
      assert false;
    }
    NoneRefuse(Core(s), t, path);
    Complete(s, t, path, {});
    NothingAside(Core(s), t, path, 0);
    NoEvents();
    var walk, whole := Walk(s, t, path, {}), Whole(s, t, path);
    assert multiset(Reports(walk.events)) + multiset([]) == multiset(Reports(walk.events));
    assert WholeReport(s, t, path) == Reports(whole.events);
  }

  lemma NoneRefuse(s: Schema, t: Target, path: string)
    ensures AllRefuse(s, t, path, {})
  {
    hide SectionTrace;
  }

  // ---- The checker reports each problem once ----

  predicate DistinctPaths(problems: seq<Problem>) {
    forall i, j | 0 <= i < j < |problems| :: problems[i].path != problems[j].path
  }

  predicate AllUnder(problems: seq<Problem>, top: string) {
    forall i | 0 <= i < |problems| :: Beneath(top, problems[i].path)
  }

  predicate NoneUnder(problems: seq<Problem>, top: string) {
    forall i | 0 <= i < |problems| :: !Beneath(top, problems[i].path)
  }

  lemma DistinctAppend(a: seq<Problem>, b: seq<Problem>, top: string)
    requires DistinctPaths(a) && DistinctPaths(b) && AllUnder(a, top) && NoneUnder(b, top)
    ensures DistinctPaths(a + b)
  {
    hide Beneath;
    forall i, j | 0 <= i < j < |a + b|
      ensures (a + b)[i].path != (a + b)[j].path
    {
      if i < |a| <= j {
        assert Beneath(top, a[i].path) && !Beneath(top, b[j - |a|].path);
      }
    }
  }

  lemma UnderKey(problems: seq<Problem>, path: string, key: string)
    requires CleanKey(key) && AllUnder(problems, JoinKey(path, key))
    ensures AllUnder(problems, path)
    ensures forall k | CleanKey(k) && k != key :: NoneUnder(problems, JoinKey(path, k))
  {
    forall i | 0 <= i < |problems|
      ensures Beneath(path, problems[i].path)
    {
      KeyBeneath(path, key, problems[i].path);
    }
    forall k, i | CleanKey(k) && k != key && 0 <= i < |problems|
      ensures !Beneath(JoinKey(path, k), problems[i].path)
    {
      if Beneath(JoinKey(path, k), problems[i].path) {
        KeysApart(path, k, key, problems[i].path);
      }
    }
  }

  lemma UnderIndex(problems: seq<Problem>, path: string, index: nat)
    requires AllUnder(problems, JoinIndex(path, index))
    ensures AllUnder(problems, path)
    ensures forall k: nat | k != index :: NoneUnder(problems, JoinIndex(path, k))
  {
    forall i | 0 <= i < |problems|
      ensures Beneath(path, problems[i].path)
    {
      IndexBeneath(path, index, problems[i].path);
    }
    forall k: nat, i | k != index && 0 <= i < |problems|
      ensures !Beneath(JoinIndex(path, k), problems[i].path)
    {
      if Beneath(JoinIndex(path, k), problems[i].path) {
        IndexesApart(path, k, index, problems[i].path);
      }
    }
  }

  /** No two problems of the checker share a path, so none is reported twice. */
  lemma {:induction false} EachOnce(s: Schema, t: Target, path: string)
    requires Nameable(s, t)
    ensures DistinctPaths(Check(s, t, path)) && AllUnder(Check(s, t, path), path)
    decreases s, Held(t), 2, 0
  {
    match s
    case SOption(inner) =>
      if t.At? && !t.node.value.Null? {
        EachOnce(inner, t, path);
      }
    case SMapped(inner, _) => EachOnce(inner, t, path);
    case SSeq(element) =>
      if t.At? && t.node.value.Array? {
        ItemsOnce(s, t, path, 0);
      }
    case SAny =>
    case SMap(_) => TableOnce(s, t, path);
    case SStruct(_) => TableOnce(s, t, path);
    case _ =>
  }

  lemma {:induction false} ItemsOnce(s: Schema, t: Target, path: string, i: nat)
    requires s.SSeq? && NameableItems(s, t) && t.At? && t.node.value.Array? && i <= |t.node.value.items|
    ensures var problems := CheckItems(s.element, t.node, path, i);
            && DistinctPaths(problems) && AllUnder(problems, path)
            && forall k: nat | k < i :: NoneUnder(problems, JoinIndex(path, k))
    decreases s, Held(t), 0, |t.node.value.items| - i
  {
    hide Nameable, Check, Beneath;
    if i < |t.node.value.items| {
      assert ItemsOf(t)[i] == t.node.value.items[i];
      var here := Check(s.element, At(t.node.value.items[i]), JoinIndex(path, i));
      EachOnce(s.element, At(t.node.value.items[i]), JoinIndex(path, i));
      UnderIndex(here, path, i);
      ItemsOnce(s, t, path, i + 1);
      DistinctAppend(here, CheckItems(s.element, t.node, path, i + 1), JoinIndex(path, i));
    }
  }

  lemma {:induction false} EntriesOnce(s: Schema, t: Target, path: string, i: nat)
    requires (s.SMap? || s.SStruct?) && NameableTable(s, t) && i <= |EntriesOf(t)|
    ensures var problems := CheckEntries(s, t, path, i);
            && DistinctPaths(problems) && AllUnder(problems, path)
            && forall k | CleanKey(k) && NotFrom(EntriesOf(t), i, k) :: NoneUnder(problems, JoinKey(path, k))
    decreases s, Held(t), 0, |EntriesOf(t)| - i
  {
    hide Nameable, NameableTable, Check, Beneath, CleanKey;
    if i < |EntriesOf(t)| {
      var key := EntriesOf(t)[i].key;
      assert forall k | NotFrom(EntriesOf(t), i, k) :: k != key && NotFrom(EntriesOf(t), i + 1, k);
      EntriesOnce(s, t, path, i + 1);
      if Reads(s, key) {
        NameableEntry(s, t, i);
        var here := Check(Under(s, key), At(EntriesOf(t)[i].node), JoinKey(path, key));
        EachOnce(Under(s, key), At(EntriesOf(t)[i].node), JoinKey(path, key));
        UnderKey(here, path, key);
        DistinctAppend(here, CheckEntries(s, t, path, i + 1), JoinKey(path, key));
      }
    }
  }

  /** The path is that of a field missing at `j` or after. */
  predicate OfMissing(s: Schema, t: Target, path: string, j: nat, q: string)
    requires s.SStruct?
  {
    exists k | j <= k < |s.fields| :: Lacks(s.fields[k], t) && q == JoinKey(path, s.fields[k].name)
  }

  lemma MissingPath(s: Schema, t: Target, path: string, j: nat, q: string)
    requires s.SStruct? && NameableTable(s, t) && OfMissing(s, t, path, j, q)
    ensures Beneath(path, q)
    ensures forall i | 0 <= i < j && i < |s.fields| :: q != JoinKey(path, s.fields[i].name)
    ensures exists key :: CleanKey(key) && !HasKey(EntriesOf(t), key) && q == JoinKey(path, key)
  {
    hide NameableTable;
    var k :| j <= k < |s.fields| && Lacks(s.fields[k], t) && q == JoinKey(path, s.fields[k].name);
    NameableField(s, t, k);
    KeyBeneath(path, s.fields[k].name, q);
    forall i | 0 <= i < j && i < |s.fields|
      ensures q != JoinKey(path, s.fields[i].name)
    {
      NameableField(s, t, i);
      if q == JoinKey(path, s.fields[i].name) {
        JoinKeyInjective(path, s.fields[k].name, s.fields[i].name);
      }
    }
  }

  lemma {:induction false} MissingOnce(s: Schema, t: Target, path: string, j: nat)
    requires s.SStruct? && NameableTable(s, t) && j <= |s.fields|
    ensures var problems := MissingFrom(s.fields, t, path, j);
            && DistinctPaths(problems)
            && forall i | 0 <= i < |problems| :: OfMissing(s, t, path, j, problems[i].path)
    decreases |s.fields| - j
  {
    hide NameableTable, Lacks, OfMissing;
    if j < |s.fields| {
      MissingOnce(s, t, path, j + 1);
      var rest := MissingFrom(s.fields, t, path, j + 1);
      forall i | 0 <= i < |rest|
        ensures rest[i].path != JoinKey(path, s.fields[j].name) && OfMissing(s, t, path, j, rest[i].path)
      {
        MissingPath(s, t, path, j + 1, rest[i].path);
        OfMissingSooner(s, t, path, j, rest[i].path);
      }
      OfMissingSooner(s, t, path, j, JoinKey(path, s.fields[j].name));
    }
  }

  lemma OfMissingSooner(s: Schema, t: Target, path: string, j: nat, q: string)
    requires s.SStruct? && j < |s.fields|
    ensures OfMissing(s, t, path, j + 1, q) ==> OfMissing(s, t, path, j, q)
    ensures Lacks(s.fields[j], t) && q == JoinKey(path, s.fields[j].name) ==> OfMissing(s, t, path, j, q)
  {
    hide Lacks;
  }

  lemma {:induction false} TableOnce(s: Schema, t: Target, path: string)
    requires (s.SMap? || s.SStruct?) && NameableTable(s, t)
    ensures DistinctPaths(Check(s, t, path)) && AllUnder(Check(s, t, path), path)
    decreases s, Held(t), 1, 0
  {
    hide NameableTable, Check, CheckEntries, MissingFrom, CleanKey;
    if t.At? && !t.node.value.Table? {
      NoTableOnce(s, t, path);
    } else {
      EntriesOnce(s, t, path, 0);
      CheckParts(s, t, path);
      if s.SStruct? {
        MissingOnce(s, t, path, 0);
        FieldsOnce(s, t, path, CheckEntries(s, t, path, 0), MissingFrom(s.fields, t, path, 0));
      }
    }
  }

  lemma CheckParts(s: Schema, t: Target, path: string)
    requires (s.SMap? || s.SStruct?) && (t.At? ==> t.node.value.Table?)
    ensures Check(s, t, path) ==
            CheckEntries(s, t, path, 0) + if s.SStruct? then MissingFrom(s.fields, t, path, 0) else []
  {
    hide CheckEntries, MissingFrom;
  }

  lemma FieldsOnce(s: Schema, t: Target, path: string, inEntries: seq<Problem>, missing: seq<Problem>)
    requires s.SStruct? && NameableTable(s, t)
    requires DistinctPaths(inEntries) && AllUnder(inEntries, path) && DistinctPaths(missing)
    requires forall k | CleanKey(k) && NotFrom(EntriesOf(t), 0, k) :: NoneUnder(inEntries, JoinKey(path, k))
    requires forall j | 0 <= j < |missing| :: OfMissing(s, t, path, 0, missing[j].path)
    ensures DistinctPaths(inEntries + missing) && AllUnder(inEntries + missing, path)
  {
    hide NameableTable, OfMissing, CleanKey;
    forall j | 0 <= j < |missing|
      ensures Beneath(path, missing[j].path)
      ensures forall i | 0 <= i < |inEntries| :: inEntries[i].path != missing[j].path
    {
      MissingPath(s, t, path, 0, missing[j].path);
      var key :| CleanKey(key) && !HasKey(EntriesOf(t), key) && missing[j].path == JoinKey(path, key);
      assert NotFrom(EntriesOf(t), 0, key);
      assert NoneUnder(inEntries, JoinKey(path, key));
      assert Beneath(JoinKey(path, key), missing[j].path);
    }
  }

  lemma NoTableOnce(s: Schema, t: Target, path: string)
    requires (s.SMap? || s.SStruct?) && t.At? && !t.node.value.Table?
    ensures Check(s, t, path) == Mismatch(t, path, "a table")
  {
    if s.SStruct? {
      NoTableNothingMissing(s.fields, t, path, 0);
    }
  }

  lemma {:induction false} NoTableNothingMissing(fields: seq<Field>, t: Target, path: string, j: nat)
    requires j <= |fields| && t.At? && !t.node.value.Table?
    ensures MissingFrom(fields, t, path, j) == []
    decreases |fields| - j
  {
    if j < |fields| {
      NoTableNothingMissing(fields, t, path, j + 1);
    }
  }
}
