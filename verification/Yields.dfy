/** A node that means a value as a type is read as that value, and nothing is reported. */
module YieldLaws {
  import opened Options
  import opened Trees
  import opened Schemas
  import opened Meanings
  import opened Reader
  import opened Walks
  import opened Events
  import opened CleanReads
  import opened Simulation
  import opened Sections
  import opened ReportLaws
  import opened Checks
  import opened ValueLaws

  function Yields<T>(v: T): Trace<T> {
    Trace([], Done(v))
  }

  lemma BeforeYields<T>(v: T)
    ensures Before([], Yields(v)) == Yields(v)
  {
  }

  lemma {:induction false} MeantIsRead(s: Schema, node: Node, path: string, v: Decoded)
    requires UniqueRead(s, At(node)) && Represents(s, v, node)
    ensures Walk(s, At(node), path, {}) == Yields(v)
    decreases s, node, 5, 0
  {
    hide WalkSeq, WalkTable, ReadScalar, TableRepresents;
    match s
    case SOption(inner) =>
      if !node.value.Null? {
        MeantIsRead(inner, node, path, v.inner);
      }
    case SMapped(inner, _) => MeantIsRead(inner, node, path, v);
    case SSeq(_) => SeqIsRead(s, node, path, v);
    case SAny =>
      if node.value.Array? {
        SeqIsRead(s, node, path, v);
      } else if node.value.Table? {
        TableIsRead(s, node, path, v);
      }
    case SMap(_) => TableIsRead(s, node, path, v);
    case SStruct(_) => TableIsRead(s, node, path, v);
    case _ => ScalarIsRead(s, node, path, v);
  }

  lemma ScalarIsRead(s: Schema, node: Node, path: string, v: Decoded)
    requires IsScalarSchema(s) && Represents(s, v, node)
    ensures ReadScalar(s, At(node), path) == ScalarRead([], Some(v))
  {
    hide Spells, InRange, ParsedInt;
    if s.SInt? {
      RangesAre(s.width, v.number);
      if node.value.Text? {
        ParsedIntIs(node.value.text, v.number);
      }
    }
  }

  predicate ItemsMean(element: Schema, v: Decoded, node: Node)
    requires node.value.Array?
  {
    && v.DSeq? && |v.items| == |node.value.items|
    && forall i | 0 <= i < |v.items| :: Represents(element, v.items[i], node.value.items[i])
  }

  lemma {:induction false} SeqIsRead(s: Schema, node: Node, path: string, v: Decoded)
    requires (s.SSeq? || s.SAny?) && node.value.Array? && UniqueItems(s, At(node))
    requires ItemsMean(ElementOf(s), v, node)
    ensures WalkSeq(s, At(node), path) == Yields(v)
    decreases s, node, 1, 0
  {
    hide WalkItems;
    assert v.items[..0] == [];
    ItemsAreRead(s, node, path, 0, v);
  }

  lemma {:induction false} ItemsAreRead(s: Schema, node: Node, path: string, i: nat, v: Decoded)
    requires (s.SSeq? || s.SAny?) && node.value.Array? && UniqueItems(s, At(node)) && i <= |node.value.items|
    requires ItemsMean(ElementOf(s), v, node)
    ensures WalkItems(s, At(node), path, i, v.items[..i]) == Yields(v)
    decreases s, node, 0, |node.value.items| - i
  {
    hide Walk, UniqueRead, Represents, ItemsMean;
    var items := node.value.items;
    assert v.DSeq? && |v.items| == |items| by { ItemMeans(ElementOf(s), v, node, 0); }
    if i == |items| {
      assert v.items[..i] == v.items;
    } else {
      assert ItemsOf(At(node))[i] == items[i];
      ItemMeans(ElementOf(s), v, node, i);
      MeantIsRead(ElementOf(s), items[i], JoinIndex(path, i), v.items[i]);
      assert v.items[..i] + [v.items[i]] == v.items[..i + 1];
      ItemsAreRead(s, node, path, i + 1, v);
      BeforeYields(v);
    }
  }

  lemma ItemMeans(element: Schema, v: Decoded, node: Node, i: nat)
    requires node.value.Array? && ItemsMean(element, v, node)
    ensures v.DSeq? && |v.items| == |node.value.items|
    ensures i < |v.items| ==> Represents(element, v.items[i], node.value.items[i])
  {
    hide Represents;
  }

  // ---- Tables ----

  /** The values of the entries before `i` that the type knows, as `v` has them. */
  ghost predicate Gathers(s: Schema, node: Node, i: nat, v: Decoded, got: map<string, Decoded>)
    requires node.value.Table? && v.DTable?
  {
    && (forall key | key in got :: key in v.entries && got[key] == v.entries[key])
    && (forall key :: key in got <==> Reads(s, key) && KeyBefore(node.value.entries, i, key))
  }

  predicate KeyBefore(entries: seq<Entry>, i: nat, key: string) {
    exists a | 0 <= a < i && a < |entries| :: entries[a].key == key
  }

  /** What `v` says of the entry at `i`. */
  lemma EntryMeans(s: Schema, node: Node, i: nat, v: Decoded)
    requires IsTable(s) && node.value.Table? && TableRepresents(s, v, node)
    requires i < |node.value.entries| && Reads(s, node.value.entries[i].key)
    ensures var entry := node.value.entries[i];
            entry.key in v.entries && Represents(Schemas.Under(s, entry.key), v.entries[entry.key], entry.node)
  {
    hide Represents, Unsupplied, StandsIn;
    var key := node.value.entries[i].key;
    if s.SStruct? {
      assert s.fields[FindField(s.fields, key)].name == key;
    }
  }

  lemma {:induction false} EntriesAreRead(s: Schema, node: Node, path: string, i: nat, v: Decoded,
      got: map<string, Decoded>) returns (all: map<string, Decoded>)
    requires IsTable(s) && node.value.Table? && UniqueTable(s, At(node)) && i <= |node.value.entries|
    requires TableRepresents(s, v, node) && Gathers(s, node, i, v, got)
    ensures WalkEntries(s, At(node), path, {}, i, got) == Yields(all)
    ensures Gathers(s, node, |node.value.entries|, v, all)
    decreases s, node, 3, |node.value.entries| - i
  {
    hide WalkEntry, UniqueRead, UniqueTable, Represents, TableRepresents, Gathers;
    assert v.DTable? by { MeantKeys(s, node, v); }
    var entries := node.value.entries;
    if i == |entries| {
      all := got;
    } else {
      var key := entries[i].key;
      if !Reads(s, key) {
        GathersPast(s, node, i, v, got);
        all := EntriesAreRead(s, node, path, i + 1, v, got);
      } else {
        UniqueEntry(s, At(node), i);
        EntryMeans(s, node, i, v);
        EntryIsRead(Schemas.Under(s, key), entries[i].node, JoinKey(path, key), v.entries[key]);
        GathersNext(s, node, i, v, got);
        all := EntriesAreRead(s, node, path, i + 1, v, got[key := v.entries[key]]);
        BeforeYields(all);
      }
    }
  }

  lemma EntryIsRead(s: Schema, node: Node, path: string, v: Decoded)
    requires UniqueRead(s, At(node)) && Represents(s, v, node)
    ensures WalkEntry(s, At(node), path) == Yields(v)
    decreases s, node, 6, 0
  {
    hide Walk, UniqueRead, Represents;
    MeantIsRead(s, node, path, v);
  }

  lemma GathersPast(s: Schema, node: Node, i: nat, v: Decoded, got: map<string, Decoded>)
    requires node.value.Table? && v.DTable? && i < |node.value.entries| && Gathers(s, node, i, v, got)
    requires !Reads(s, node.value.entries[i].key)
    ensures Gathers(s, node, i + 1, v, got)
  {
    forall key
      ensures key in got <==> Reads(s, key) && KeyBefore(node.value.entries, i + 1, key)
    {
      KeyBeforeNext(node.value.entries, i, key);
    }
  }

  lemma GathersNext(s: Schema, node: Node, i: nat, v: Decoded, got: map<string, Decoded>)
    requires IsTable(s) && node.value.Table? && v.DTable? && i < |node.value.entries| && Gathers(s, node, i, v, got)
    requires UniqueTable(s, At(node)) && Reads(s, node.value.entries[i].key) && node.value.entries[i].key in v.entries
    ensures node.value.entries[i].key !in got
    ensures var key := node.value.entries[i].key; Gathers(s, node, i + 1, v, got[key := v.entries[key]])
  {
    hide UniqueTable, Reads;
    var entries := node.value.entries;
    assert UniqueKeys(entries) by { UniqueInTable(s, node); }
    forall key
      ensures KeyBefore(entries, i + 1, key) <==> KeyBefore(entries, i, key) || key == entries[i].key
    {
      KeyBeforeNext(entries, i, key);
    }
    assert !KeyBefore(entries, i, entries[i].key);
  }

  lemma KeyBeforeNext(entries: seq<Entry>, i: nat, key: string)
    requires i < |entries|
    ensures KeyBefore(entries, i + 1, key) <==> KeyBefore(entries, i, key) || key == entries[i].key
  {
    if KeyBefore(entries, i, key) {
      var a :| 0 <= a < i && a < |entries| && entries[a].key == key;
      assert entries[a].key == key && a < i + 1;
    }
  }

  /** With something standing in for every field without an entry, nothing is to be supplied. */
  lemma {:induction false} NoGaps(s: Schema, node: Node, path: string, j: nat, got: map<string, Decoded>)
    requires IsTable(s) && node.value.Table? && j <= |FieldsOf(s)|
    requires forall k | 0 <= k < |FieldsOf(s)| :: FieldsOf(s)[k].name in got || GivenFor(FieldsOf(s)[k]).Value?
    ensures WalkGaps(s, At(node), path, j, got) == Yields(got)
    decreases |FieldsOf(s)| - j
  {
    if j < |FieldsOf(s)| {
      NoGaps(s, node, path, j + 1, got);
    }
  }

  lemma FieldIsGiven(s: Schema, node: Node, v: Decoded, got: map<string, Decoded>, j: nat)
    requires s.SStruct? && node.value.Table? && TableRepresents(s, v, node) && j < |s.fields|
    requires Gathers(s, node, |node.value.entries|, v, got) && s.fields[j].name !in got
    ensures s.fields[j].name in v.entries && GivenFor(s.fields[j]) == Given.Value(v.entries[s.fields[j].name])
  {
    hide Represents, StandsIn;
    var entries, name := node.value.entries, s.fields[j].name;
    assert Reads(s, name);
    assert KeyBefore(entries, |entries|, name) || Unsupplied(entries, name);
    StandsInIs(s.fields[j], v.entries[name]);
  }

  /** The table built is the value meant. */
  lemma BuiltIsMeant(s: Schema, node: Node, v: Decoded, got: map<string, Decoded>)
    requires IsTable(s) && node.value.Table? && TableRepresents(s, v, node) && UniqueNames(FieldsOf(s))
    requires Gathers(s, node, |node.value.entries|, v, got)
    ensures Completed(FieldsOf(s), got) == v.entries
  {
    hide Represents, Completed, Gathers, TableRepresents;
    var whole := Completed(FieldsOf(s), got);
    MeantKeys(s, node, v);
    GotKeys(s, node, v, got);
    BuiltKeys(FieldsOf(s), got);
    forall key | key in whole
      ensures key in v.entries && whole[key] == v.entries[key]
    {
      CompletedKeeps(FieldsOf(s), got, key);
      if key !in got {
        var j := FindField(FieldsOf(s), key);
        FieldIsGiven(s, node, v, got, j);
        CompletedGives(FieldsOf(s), got, j);
      }
    }
  }

  lemma MeantKeys(s: Schema, node: Node, v: Decoded)
    requires IsTable(s) && node.value.Table? && TableRepresents(s, v, node)
    ensures v.DTable? && v.entries.Keys == if s.SStruct? then NamesOf(s.fields) else KeysOf(node.value.entries)
  {
    hide Represents, StandsIn, Unsupplied;
  }

  lemma GotKeys(s: Schema, node: Node, v: Decoded, got: map<string, Decoded>)
    requires IsTable(s) && node.value.Table? && v.DTable? && Gathers(s, node, |node.value.entries|, v, got)
    ensures if s.SStruct? then got.Keys <= NamesOf(s.fields) else got.Keys == KeysOf(node.value.entries)
    ensures forall key | key in got :: key in v.entries && got[key] == v.entries[key]
  {
    forall key | key in got && s.SStruct?
      ensures key in NamesOf(s.fields)
    {
      assert s.fields[FindField(s.fields, key)].name == key;
    }
    forall i | 0 <= i < |node.value.entries| && !s.SStruct?
      ensures node.value.entries[i].key in got
    {
      assert KeyBefore(node.value.entries, |node.value.entries|, node.value.entries[i].key);
    }
  }

  lemma BuiltKeys(fields: seq<Field>, got: map<string, Decoded>)
    ensures Completed(fields, got).Keys == NamesOf(fields) + got.Keys
    ensures forall key | key in Completed(fields, got) && key !in got :: FindField(fields, key) < |fields|
  {
  }

  lemma {:induction false} TableIsRead(s: Schema, node: Node, path: string, v: Decoded)
    requires IsTable(s) && node.value.Table? && UniqueTable(s, At(node)) && TableRepresents(s, v, node)
    ensures WalkTable(s, At(node), path, {}) == Yields(v)
    decreases s, node, 4, 0
  {
    hide WalkEntries, WalkGaps, UniqueTable, TableRepresents, Completed, Gathers;
    assert v.DTable? by { MeantKeys(s, node, v); }
    assert Gathers(s, node, 0, v, map[]) by { NothingGathered(s, node, v); }
    var got := EntriesAreRead(s, node, path, 0, v, map[]);
    forall k | 0 <= k < |FieldsOf(s)|
      ensures FieldsOf(s)[k].name in got || GivenFor(FieldsOf(s)[k]).Value?
    {
      if FieldsOf(s)[k].name !in got {
        FieldIsGiven(s, node, v, got, k);
      }
    }
    NoGaps(s, node, path, 0, got);
    assert UniqueNames(FieldsOf(s)) by { NamesAreUnique(s, node); }
    BuiltIsMeant(s, node, v, got);
    BeforeYields(got);
    assert AllFound(NotATable(At(node), path)) == [];
  }

  lemma NothingGathered(s: Schema, node: Node, v: Decoded)
    requires node.value.Table? && v.DTable?
    ensures Gathers(s, node, 0, v, map[])
  {
  }

  // ---- Both ways ----

  /** A read ends with `v` and reports nothing exactly when `v` is what the node means. */
  lemma ReadExactlyWhenMeant(s: Schema, node: Node, path: string, v: Decoded)
    requires UniqueRead(s, At(node))
    ensures Represents(s, v, node) <==>
            Silently(Walk(s, At(node), path, {})) && Walk(s, At(node), path, {}).end == Done(v)
  {
    hide Walk, UniqueRead, Represents;
    if Represents(s, v, node) {
      MeantIsRead(s, node, path, v);
    }
    if Silently(Walk(s, At(node), path, {})) {
      ReadIsTrue(s, node, path);
    }
  }

  /** `v` is what there is to read at `t`. */
  predicate Means(s: Schema, t: Target, v: Decoded) {
    if t.At? then Represents(s, v, t.node) else Vacant(s, v)
  }

  /** The whole of a section reports nothing and yields `v` exactly when `v` is what there is to read. */
  lemma WholeExactlyWhenMeant(s: Schema, t: Target, path: string, v: Decoded)
    requires UniqueRead(s, t) && !Silent(t)
    ensures Means(s, t, v) <==> WholeReport(s, t, path) == [] && Whole(s, t, path).end == Done(v)
  {
    hide Walk, Whole, UniqueRead, Represents, Vacant, Reports, Silently;
    if WholeReport(s, t, path) == [] {
      if t.At? {
        WholeIsTrue(s, t.node, path);
      } else {
        WholeIsVacant(s, t, path);
      }
      if Means(s, t, v) {
        MeaningIsOne(s, t, v, Whole(s, t, path).end.value);
      }
    }
    if Means(s, t, v) {
      MeantIsWhole(s, t, path, v);
    }
  }

  lemma MeaningIsOne(s: Schema, t: Target, v: Decoded, other: Decoded)
    requires UniqueRead(s, t) && !Silent(t) && Means(s, t, v) && Means(s, t, other)
    ensures v == other
  {
    hide Walk, UniqueRead, Represents, Vacant;
    WalkIsMeant(s, t, "", v);
    WalkIsMeant(s, t, "", other);
  }

  lemma WalkIsMeant(s: Schema, t: Target, path: string, v: Decoded)
    requires UniqueRead(s, t) && !Silent(t) && Means(s, t, v)
    ensures Walk(s, t, path, {}) == Yields(v)
  {
    hide Walk, UniqueRead, Represents, Vacant;
    if t.At? {
      MeantIsRead(s, t.node, path, v);
    } else {
      VacantYields(s, t, path, v);
    }
  }

  /** Where there is nothing to read, what the type makes of nothing is read, and nothing is supplied. */
  lemma {:induction false} VacantYields(s: Schema, t: Target, path: string, v: Decoded)
    requires t.Absent? && !t.reported && UniqueRead(s, t) && Vacant(s, v)
    ensures Walk(s, t, path, {}) == Yields(v)
  {
    hide WalkTable;
    match s
    case SOption(_) =>
    case SMapped(inner, _) => VacantYields(inner, t, path, v);
    case SMap(_) => VacantTableYields(s, t, path, v);
    case SStruct(_) => VacantTableYields(s, t, path, v);
  }

  lemma VacantTableYields(s: Schema, t: Target, path: string, v: Decoded)
    requires (s.SMap? || s.SStruct?) && t.Absent? && !t.reported && UniqueTable(s, t) && Vacant(s, v)
    ensures WalkTable(s, t, path, {}) == Yields(v)
  {
    hide WalkGaps, WalkTable, UniqueRead, Completed, Vacant;
    VacantIs(s, v);
    NothingToSupply(s, t, path, 0);
    StandIns(FieldsOf(s));
    assert Completed(FieldsOf(s), map[]) == v.entries;
    EmptyTable(s, t, path);
  }

  lemma EmptyTable(s: Schema, t: Target, path: string)
    requires (s.SMap? || s.SStruct?) && t.Absent? && WalkGaps(s, t, path, 0, map[]) == Trace([], Done(map[]))
    ensures WalkTable(s, t, path, {}) == Yields(DTable(Completed(FieldsOf(s), map[])))
  {
    hide WalkGaps, Completed;
    assert AllFound(NotATable(t, path)) == [];
    var none: map<string, Decoded> := map[];
    assert WalkEntries(s, t, path, {}, 0, map[]) == Yields(none);
    BeforeYields(none);
  }

  lemma MeantIsWhole(s: Schema, t: Target, path: string, v: Decoded)
    requires UniqueRead(s, t) && !Silent(t) && Means(s, t, v)
    ensures WholeReport(s, t, path) == [] && Whole(s, t, path).end == Done(v) && Needed(s, t, path) == 0
  {
    hide Walk, Whole, UniqueRead, Represents, Vacant, Reports, HeldEvents, Asides, Refusals, StopsInSection, Fills,
      AllRefuse, SectionTrace, Means;
    WalkIsMeant(s, t, path, v);
    NoneRefuse(Core(s), t, path);
    NothingAside(Core(s), t, path, 0);
    NoEvents();
    if StopsInSection(s, t, path, {}) {
      var sp := Advance(s, t, path, {});
      assert false;
    }
    Complete(s, t, path, {});
    QuietMultiset(Reports(Whole(s, t, path).events), []);
  }
}
