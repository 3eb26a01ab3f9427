/** Two tables that print one path: what a report then loses. */
module ConfusedPaths {
  import opened Options
  import opened Trees
  import opened Schemas
  import opened Reader
  import opened CleanReads
  import opened Drivers
  import opened ReportLaws
  import opened Checks

  const EMPTY := Node(Table([]), Default)

  function Holding(key: string, node: Node): Node {
    Node(Table([Entry(key, node)]), Default)
  }

  // ---- A struct of one field with no entry for it ----

  predicate Bare(t: Target) {
    EntriesOf(t) == [] && (t.At? ==> t.node.value.Table?)
  }

  lemma BareUnfolds(cx: Plan, f: Field, t: Target, path: string, log: Log)
    requires Bare(t)
    ensures var s := SStruct([f]);
            var (log1, r) := ReadExtras(cx, s, t, path, Extras(cx.patches, path, []), 0, map[], log);
            Read(cx, s, t, path, log) ==
              TableResult(cx, t, path, if r.Err? then Err(r.error) else Closed(s, r.value), log1)
  {
    hide Extras, ReadExtras, Closed, TableResult;
    assert Record(log, []) == log by { assert log.problems + [] == log.problems; }
    assert ReadEntries(cx, SStruct([f]), t, path, 0, map[], log) == (log, Ok(map[]));
  }

  /** A required field is asked for. */
  lemma BareAsks(cx: Plan, f: Field, t: Target, path: string, log: Log)
    requires Bare(t) && GivenFor(f).Required? && !SetAside(cx, path, f.name) && Extras(cx.patches, path, []) == []
    ensures Read(cx, SStruct([f]), t, path, log) ==
              (log.(patch := Some(NewPatch(Patch(path, f.name), MissingProblem(t, path, f.name)))),
               Err(DeError(Missing(f.name), true)))
  {
    hide Read, Extras, MissingProblem;
    BareUnfolds(cx, f, t, path, log);
    var none: map<string, Decoded> := map[];
    assert ReadExtras(cx, SStruct([f]), t, path, [], 0, none, log) == (log, Ok(none));
    assert FirstGap([f], none, 0) == 0;
  }

  /** Required or not, it takes the placeholder that is there for it, and goes on as the placeholder reads. */
  lemma BareTakes(cx: Plan, f: Field, t: Target, path: string, log: Log)
    requires Bare(t) && path != cx.root && Extras(cx.patches, path, []) == [f.name]
    requires var r := Read(cx, f.schema, Absent(true, OriginOf(t)), JoinKey(path, f.name), log).1;
             r.Ok? || r.error.recorded
    ensures var inner := Read(cx, f.schema, Absent(true, OriginOf(t)), JoinKey(path, f.name), log);
            var outer := Read(cx, SStruct([f]), t, path, log);
            inner.0 == outer.0 && (if inner.1.Ok? then outer.1.Ok? else outer.1 == inner.1)
  {
    hide Read, Extras, NextValue;
    var s, below, extras := SStruct([f]), Absent(true, OriginOf(t)), [f.name];
    BareUnfolds(cx, f, t, path, log);
    RecordedNext(cx, f.schema, below, path, JoinKey(path, f.name), log);
    assert FindField([f], f.name) == 0;
    var (log1, r) := NextValue(cx, f.schema, below, path, JoinKey(path, f.name), log);
    var none: map<string, Decoded> := map[];
    if r.Ok? {
      var got := none[f.name := r.value];
      assert ReadExtras(cx, s, t, path, extras, 1, got, log1) == (log1, Ok(got));
      assert ReadExtras(cx, s, t, path, extras, 0, none, log) == (log1, Ok(got));
      assert FirstGap([f], got, 0) == FirstGap([f], got, 1);
    } else {
      assert ReadExtras(cx, s, t, path, extras, 0, none, log) == (log1, Err(r.error));
    }
  }

  /** A table under a key other than the root's reads as it is, once its errors are recorded. */
  lemma RecordedNext(cx: Plan, s: Schema, t: Target, base: string, path: string, log: Log)
    requires var (after, r) := Read(cx, s, t, path, log);
             r.Ok? || (r.error.recorded && (base != cx.root || after.patch.Some?))
    ensures NextValue(cx, s, t, base, path, log) == Read(cx, s, t, path, log)
  {
    hide Read;
  }

  /** A scalar takes any placeholder, in silence. */
  lemma Placeholder(cx: Plan, s: Schema, path: string, log: Log)
    requires s.SBool? || s.SInt?
    ensures var (after, r) := Read(cx, s, Absent(true, Some(Default)), path, log); after == log && r.Ok?
  {
    assert Record(log, []) == log by { assert log.problems + [] == log.problems; }
  }

  // ---- A table of one entry ----

  /** A map of `inner`, or a struct whose one field it is. */
  ghost predicate OneOf(s: Schema, key: string, inner: Schema) {
    s == SMap(inner) || s == SStruct([Field(key, inner, false)])
  }

  lemma OneUnfolds(cx: Plan, s: Schema, inner: Schema, key: string, node: Node, base: string, log: Log)
    requires OneOf(s, key, inner) && Extras(cx.patches, base, [Entry(key, node)]) == []
    ensures IsTable(s)
    ensures var t := At(Holding(key, node));
            var (log1, r) := ReadEntries(cx, s, t, base, 0, map[], log);
            Read(cx, s, t, base, log) ==
              TableResult(cx, t, base, if r.Err? then Err(r.error) else Closed(s, r.value), log1)
  {
    hide Extras, ReadEntries, Closed, TableResult;
    var t := At(Holding(key, node));
    assert Record(log, []) == log by { assert log.problems + [] == log.problems; }
    var (log1, r) := ReadEntries(cx, s, t, base, 0, map[], log);
    if r.Ok? {
      assert ReadExtras(cx, s, t, base, [], 0, r.value, log1) == (log1, Ok(r.value));
    }
  }

  /** It reads as its entry does. */
  lemma OneEntry(cx: Plan, s: Schema, inner: Schema, key: string, node: Node, base: string, log: Log)
    requires OneOf(s, key, inner) && base != cx.root && Extras(cx.patches, base, [Entry(key, node)]) == []
    requires var r := Read(cx, inner, At(node), JoinKey(base, key), log).1; r.Ok? || r.error.recorded
    ensures var (log1, r) := Read(cx, inner, At(node), JoinKey(base, key), log);
            var outer := Read(cx, s, At(Holding(key, node)), base, log);
            outer.0 == log1 && (if r.Ok? then outer.1.Ok? else outer.1 == Err(r.error))
  {
    hide Read, Extras, NextValue;
    var t := At(Holding(key, node));
    OneUnfolds(cx, s, inner, key, node, base, log);
    RecordedNext(cx, inner, At(node), base, JoinKey(base, key), log);
    assert s.SStruct? ==> FindField(s.fields, key) == 0;
    var (log1, r) := NextValue(cx, inner, At(node), base, JoinKey(base, key), log);
    var none: map<string, Decoded> := map[];
    if r.Ok? {
      var got := none[key := r.value];
      assert ReadEntries(cx, s, t, base, 1, got, log1) == (log1, Ok(got));
      assert ReadEntries(cx, s, t, base, 0, none, log) == (log1, Ok(got));
      assert s.SStruct? ==> FirstGap(s.fields, got, 0) == FirstGap(s.fields, got, 1);
    } else {
      assert ReadEntries(cx, s, t, base, 0, none, log) == (log1, Err(r.error));
    }
  }

  // ---- The root ----

  lemma RootStops(cx: Plan, s: Schema, root: Node, i: nat, got: map<string, Decoded>, log: Log)
    requires IsTable(s) && root.value.Table? && i < |root.value.entries| && cx.root == "" && cx.skipped == {}
    requires Reads(s, root.value.entries[i].key)
    requires var entry := root.value.entries[i];
             var (after, r) := Read(cx, Under(s, entry.key), At(entry.node), JoinKey("", entry.key), log);
             !Taken(s, entry.key, got) && r.Err? && r.error.recorded && after.patch.Some?
    ensures var entry := root.value.entries[i];
            var (after, r) := Read(cx, Under(s, entry.key), At(entry.node), JoinKey("", entry.key), log);
            ReadEntries(cx, s, At(root), "", i, got, log) == (after, Err(r.error))
  {
    hide Read, NextValue;
    var entry := root.value.entries[i];
    RecordedNext(cx, Under(s, entry.key), At(entry.node), "", JoinKey("", entry.key), log);
  }

  lemma RootGoesOn(cx: Plan, s: Schema, root: Node, i: nat, got: map<string, Decoded>, log: Log)
    requires IsTable(s) && root.value.Table? && i < |root.value.entries| && cx.root == "" && cx.skipped == {}
    requires Reads(s, root.value.entries[i].key)
    requires var entry := root.value.entries[i];
             var (after, r) := Read(cx, Under(s, entry.key), At(entry.node), JoinKey("", entry.key), log);
             !Taken(s, entry.key, got) && r.Ok?
    ensures var entry := root.value.entries[i];
            var (after, r) := Read(cx, Under(s, entry.key), At(entry.node), JoinKey("", entry.key), log);
            ReadEntries(cx, s, At(root), "", i, got, log) ==
              ReadEntries(cx, s, At(root), "", i + 1, got[entry.key := r.value], after)
  {
    hide Read, NextValue;
    var entry := root.value.entries[i];
    RecordedNext(cx, Under(s, entry.key), At(entry.node), "", JoinKey("", entry.key), log);
  }

  lemma RootEnds(cx: Plan, s: Schema, root: Node)
    requires (s.SMap? || s.SStruct?) && root.value.Table?
    ensures var (log, r) := ReadEntries(cx, s, At(root), "", 0, map[], NOTHING);
            && (r.Err? && r.error.recorded ==> Read(cx, s, At(root), "", NOTHING) == (log, Err(r.error)))
            && (r.Ok? && Extras(cx.patches, "", root.value.entries) == [] && Closed(s, r.value).Ok? ==>
                  Read(cx, s, At(root), "", NOTHING) == (log, Closed(s, r.value)))
  {
    hide ReadEntries, Extras, Closed;
    assert Record(NOTHING, []) == NOTHING;
    var (log, r) := ReadEntries(cx, s, At(root), "", 0, map[], NOTHING);
    if r.Ok? {
      assert ReadExtras(cx, s, At(root), "", [], 0, r.value, log) == (log, Ok(r.value));
    }
  }

  lemma NothingExtra()
    ensures forall path, entries :: Extras([], path, entries) == []
  {
  }

  lemma OtherExtras(patch: Patch, more: seq<Patch>, path: string, entries: seq<Entry>)
    ensures path != patch.parent ==> Extras([patch] + more, path, entries) == Extras(more, path, entries)
    ensures path == patch.parent && !HasKey(entries, patch.field) ==>
              Extras([patch] + more, path, entries) == [patch.field] + Extras(more, path, entries)
  {
    assert ([patch] + more)[1..] == more;
  }

  lemma Spellings()
    ensures JoinKey("", "a") == "a" && JoinKey("", "a.b") == "a.b" && JoinKey("", "a.b.f") == "a.b.f"
    ensures JoinKey("a", "b") == "a.b" && JoinKey("a", "b.c") == "a.b.c" && JoinKey("a.b", "c") == "a.b.c"
    ensures JoinKey("a.b.c", "x") == "a.b.c.x" && JoinKey("a.b", "f") == "a.b.f" && JoinKey("a.b.f", "y") == "a.b.f.y"
  {
  }

  // ---- One field missing in both tables ----

  const FLAG := SStruct([Field("x", SBool, false)])
  const OUTER := SMap(SMap(FLAG))
  const CONFUSED := Node(Table([Entry("a", Holding("b.c", EMPTY)), Entry("a.b", Holding("c", EMPTY))]), Default)

  const ASKED := Patch("a.b.c", "x")
  const TOLD := Problem("a.b.c.x", None, MissingField)

  /** The first pass asks for the field of the first table. */
  lemma FirstPass()
    ensures Read(Plan([], "", {}), OUTER, At(CONFUSED), "", NOTHING) ==
              (NOTHING.(patch := Some(NewPatch(ASKED, Some(TOLD)))), Err(DeError(Missing("x"), true)))
  {
    hide Read, ReadEntries, Extras;
    var cx := Plan([], "", {});
    Spellings();
    NothingExtra();
    BareAsks(cx, FLAG.fields[0], At(EMPTY), "a.b.c", NOTHING);
    OneEntry(cx, SMap(FLAG), FLAG, "b.c", EMPTY, "a", NOTHING);
    RootStops(cx, OUTER, CONFUSED, 0, map[], NOTHING);
    RootEnds(cx, OUTER, CONFUSED);
  }

  lemma ExtrasOfOne(path: string, entries: seq<Entry>)
    ensures path != "a.b.c" ==> Extras([ASKED], path, entries) == []
    ensures Extras([ASKED], "a.b.c", []) == ["x"]
  {
    assert [ASKED][1..] == [];
  }

  /** The second supplies it to both. */
  lemma SecondPass()
    ensures var (log, r) := Read(Plan([ASKED], "", {}), OUTER, At(CONFUSED), "", NOTHING); log == NOTHING && r.Ok?
  {
    hide Read, ReadEntries, Extras;
    var cx := Plan([ASKED], "", {});
    Spellings();
    ExtrasOfOne("a", [Entry("b.c", EMPTY)]);
    ExtrasOfOne("a.b", [Entry("c", EMPTY)]);
    ExtrasOfOne("", CONFUSED.value.entries);
    Placeholder(cx, SBool, "a.b.c.x", NOTHING);
    BareTakes(cx, FLAG.fields[0], At(EMPTY), "a.b.c", NOTHING);
    OneEntry(cx, SMap(FLAG), FLAG, "b.c", EMPTY, "a", NOTHING);
    OneEntry(cx, SMap(FLAG), FLAG, "c", EMPTY, "a.b", NOTHING);
    RootGoesOn(cx, OUTER, CONFUSED, 0, map[], NOTHING);
    var got := map["a" := Read(cx, SMap(FLAG), At(Holding("b.c", EMPTY)), "a", NOTHING).1.value];
    RootGoesOn(cx, OUTER, CONFUSED, 1, got, NOTHING);
    AllRead(cx, OUTER, CONFUSED, got["a.b" := Read(cx, SMap(FLAG), At(Holding("c", EMPTY)), "a.b", NOTHING).1.value]);
    RootEnds(cx, OUTER, CONFUSED);
  }

  lemma AllRead(cx: Plan, s: Schema, root: Node, got: map<string, Decoded>)
    requires IsTable(s) && root.value.Table?
    ensures ReadEntries(cx, s, At(root), "", |root.value.entries|, got, NOTHING) == (NOTHING, Ok(got))
  {
  }

  /**
   * Keys with a `.` let two tables print one path: a field missing in both is supplied to both at
   * once, and reported once. The checker reports it twice.
   */
  lemma ConfusedPathsLoseOne(whereabouts: string -> Option<Origin>)
    ensures var report := Driven(ReadingOf(OUTER, At(CONFUSED), "", whereabouts), START, 0);
            report.settled && report.value.Some? && report.problems == [TOLD]
    ensures Check(OUTER, At(CONFUSED), "") == [TOLD, TOLD]
  {
    hide Read, Check;
    var rd := ReadingOf(OUTER, At(CONFUSED), "", whereabouts);
    FirstPass();
    SecondPass();
    var st := State([ASKED], {}, [], [TOLD], {});
    assert rd.visit([], {}) == Read(Plan([], "", {}), OUTER, At(CONFUSED), "", NOTHING);
    assert rd.visit([ASKED], {}) == Read(Plan([ASKED], "", {}), OUTER, At(CONFUSED), "", NOTHING);
    assert TurnOf(rd, START) == Turn.Adds(st) by {
      assert [] + [ASKED] == [ASKED] && [] + [TOLD] == [TOLD];
    }
    assert TurnOf(rd, st).report.problems == [TOLD] by {
      assert [] + [] + ([TOLD] + []) == [TOLD];
    }
    CheckConfused();
  }

  lemma CheckConfused()
    ensures Check(OUTER, At(CONFUSED), "") == [TOLD, TOLD]
  {
    hide Check;
    Spellings();
    var t := At(CONFUSED);
    CheckBare(FLAG.fields[0], "a.b.c");
    CheckOne(SMap(FLAG), FLAG, "b.c", EMPTY, "a");
    CheckOne(SMap(FLAG), FLAG, "c", EMPTY, "a.b");
    CheckTable(OUTER, t, "");
    assert CheckEntries(OUTER, t, "", 2) == [];
    assert CheckEntries(OUTER, t, "", 1) == [TOLD] + [];
    assert CheckEntries(OUTER, t, "", 0) == [TOLD] + ([TOLD] + []);
  }

  lemma CheckBare(f: Field, path: string)
    ensures Check(SStruct([f]), At(EMPTY), path) ==
              if GivenFor(f).Required? then [Problem(JoinKey(path, f.name), None, MissingField)] else []
  {
    assert MissingFrom([f], At(EMPTY), path, 1) == [];
    assert Lacks(f, At(EMPTY)) == GivenFor(f).Required?;
  }

  lemma CheckOne(s: Schema, inner: Schema, key: string, node: Node, base: string)
    requires OneOf(s, key, inner)
    ensures Check(s, At(Holding(key, node)), base) == Check(inner, At(node), JoinKey(base, key))
  {
    hide Check;
    var t := At(Holding(key, node));
    assert s.SStruct? ==> FindField(s.fields, key) == 0;
    assert CheckEntries(s, t, base, 1) == [];
    assert CheckEntries(s, t, base, 0) == Check(inner, At(node), JoinKey(base, key)) + [];
    if s.SStruct? {
      assert MissingFrom(s.fields, t, base, 1) == [];
      assert !Lacks(s.fields[0], t);
    }
    CheckTable(s, t, base);
  }

  lemma CheckTable(s: Schema, t: Target, base: string)
    requires (s.SMap? || s.SStruct?) && t.At? && t.node.value.Table?
    ensures Check(s, t, base) == CheckEntries(s, t, base, 0) + if s.SMap? then [] else MissingFrom(s.fields, t, base, 0)
  {
    hide CheckEntries, MissingFrom;
  }

  // ---- No field missing in both ----

  const BYTE := SInt(U8)
  const LEAF_TYPE := SStruct([Field("y", BYTE, false)])
  const NEEDS := SStruct([Field("f", BYTE, false)])
  const SPARES := SStruct([Field("f", LEAF_TYPE, true)])
  const FIRST := SStruct([Field("b", NEEDS, false)])
  const OVERLAID := SStruct([Field("a", FIRST, false), Field("a.b", SPARES, false), Field("a.b.f", LEAF_TYPE, false)])
  const SECTIONS := Node(Table([Entry("a", Holding("b", EMPTY)), Entry("a.b", EMPTY), Entry("a.b.f", EMPTY)]), Default)

  const FIELD := Patch("a.b", "f")
  const INSIDE := Patch("a.b.f", "y")
  const MISSES := Problem("a.b.f", None, MissingField)
  const LOST := Problem("a.b.f.y", None, MissingField)

  lemma FieldsFound()
    ensures FindField(OVERLAID.fields, "a") == 0 && FindField(OVERLAID.fields, "a.b") == 1 &&
            FindField(OVERLAID.fields, "a.b.f") == 2
  {
    var fields := OVERLAID.fields;
    assert fields[1..][0] == fields[1] && fields[1..][1..] == fields[2..] && fields[2..][0] == fields[2];
    assert FindField(fields[2..], "a.b.f") == 0 && FindField(fields[1..], "a.b") == 0;
    assert FindField(fields[1..], "a.b.f") == 1;
  }

  /** The first pass asks for the field the first table needs. */
  lemma NeedIsAsked()
    ensures Read(Plan([], "", {}), OVERLAID, At(SECTIONS), "", NOTHING) ==
              (NOTHING.(patch := Some(NewPatch(FIELD, Some(MISSES)))), Err(DeError(Missing("f"), true)))
  {
    hide Read, ReadEntries, Extras, FindField;
    var cx := Plan([], "", {});
    Spellings();
    FieldsFound();
    NothingExtra();
    BareAsks(cx, NEEDS.fields[0], At(EMPTY), "a.b", NOTHING);
    OneEntry(cx, FIRST, NEEDS, "b", EMPTY, "a", NOTHING);
    RootStops(cx, OVERLAID, SECTIONS, 0, map[], NOTHING);
    RootEnds(cx, OVERLAID, SECTIONS);
  }

  lemma ExtrasOfField(more: seq<Patch>, path: string, entries: seq<Entry>)
    requires more == [] || more == [INSIDE]
    ensures path != "a.b" && path != "a.b.f" ==> Extras([FIELD] + more, path, entries) == []
    ensures path == "a.b" && entries == [] ==> Extras([FIELD] + more, path, entries) == ["f"]
    ensures path == "a.b.f" && entries == [] ==>
              Extras([FIELD] + more, path, entries) == if more == [] then [] else ["y"]
  {
    OtherExtras(FIELD, more, path, entries);
    assert more != [] ==> more[1..] == [];
  }

  /** Supplied, it is taken by both tables, and the field inside the second's is asked for in silence. */
  lemma SpareIsAsked()
    ensures Read(Plan([FIELD], "", {}), OVERLAID, At(SECTIONS), "", NOTHING) ==
              (NOTHING.(patch := Some(NewPatch(INSIDE, None))), Err(DeError(Missing("y"), true)))
  {
    hide Read, ReadEntries, Extras, FindField;
    var cx := Plan([FIELD], "", {});
    Spellings();
    FieldsFound();
    assert [FIELD] + [] == [FIELD];
    ExtrasOfField([], "a", [Entry("b", EMPTY)]);
    ExtrasOfField([], "a.b", []);
    ExtrasOfField([], "a.b.f", []);
    FirstReads(cx);
    RootGoesOn(cx, OVERLAID, SECTIONS, 0, map[], NOTHING);
    var got := map["a" := Read(cx, FIRST, At(Holding("b", EMPTY)), "a", NOTHING).1.value];
    BareAsks(cx, LEAF_TYPE.fields[0], Absent(true, Some(Default)), "a.b.f", NOTHING);
    BareTakes(cx, SPARES.fields[0], At(EMPTY), "a.b", NOTHING);
    RootStops(cx, OVERLAID, SECTIONS, 1, got, NOTHING);
    RootEnds(cx, OVERLAID, SECTIONS);
  }

  lemma FirstReads(cx: Plan)
    requires cx.root == "" && Extras(cx.patches, "a.b", []) == ["f"] &&
             Extras(cx.patches, "a", [Entry("b", EMPTY)]) == []
    ensures var (log, r) := Read(cx, FIRST, At(Holding("b", EMPTY)), "a", NOTHING); log == NOTHING && r.Ok?
  {
    hide Read, Extras;
    Spellings();
    Placeholder(cx, BYTE, "a.b.f", NOTHING);
    BareTakes(cx, NEEDS.fields[0], At(EMPTY), "a.b", NOTHING);
    OneEntry(cx, FIRST, NEEDS, "b", EMPTY, "a", NOTHING);
  }

  lemma ExtrasOfBoth()
    ensures var patches := [FIELD, INSIDE];
            && Extras(patches, "a", [Entry("b", EMPTY)]) == [] && Extras(patches, "", SECTIONS.value.entries) == []
            && Extras(patches, "a.b", []) == ["f"] && Extras(patches, "a.b.f", []) == ["y"]
  {
    hide Extras;
    assert [FIELD] + [INSIDE] == [FIELD, INSIDE];
    ExtrasOfField([INSIDE], "a", [Entry("b", EMPTY)]);
    ExtrasOfField([INSIDE], "", SECTIONS.value.entries);
    ExtrasOfField([INSIDE], "a.b", []);
    ExtrasOfField([INSIDE], "a.b.f", []);
  }

  /** A table that reads with a value, in silence. */
  predicate ReadsOn(cx: Plan, s: Schema, node: Node, path: string) {
    var (log, r) := Read(cx, s, At(node), path, NOTHING);
    log == NOTHING && r.Ok?
  }

  lemma EachReads()
    ensures var cx := Plan([FIELD, INSIDE], "", {});
            ReadsOn(cx, FIRST, Holding("b", EMPTY), "a") && ReadsOn(cx, SPARES, EMPTY, "a.b") &&
              ReadsOn(cx, LEAF_TYPE, EMPTY, "a.b.f")
  {
    hide Read, Extras;
    var cx := Plan([FIELD, INSIDE], "", {});
    Spellings();
    ExtrasOfBoth();
    FirstReads(cx);
    Placeholder(cx, BYTE, "a.b.f.y", NOTHING);
    BareTakes(cx, LEAF_TYPE.fields[0], Absent(true, Some(Default)), "a.b.f", NOTHING);
    BareTakes(cx, SPARES.fields[0], At(EMPTY), "a.b", NOTHING);
    BareTakes(cx, LEAF_TYPE.fields[0], At(EMPTY), "a.b.f", NOTHING);
  }

  /** That field in turn is supplied to the third table, which lacks it. */
  lemma NoneIsAsked()
    ensures ReadsOn(Plan([FIELD, INSIDE], "", {}), OVERLAID, SECTIONS, "")
  {
    hide Read, ReadEntries, Extras, FindField, Closed;
    var cx := Plan([FIELD, INSIDE], "", {});
    Spellings();
    FieldsFound();
    EachReads();
    assert Extras(cx.patches, "", SECTIONS.value.entries) == [] by { ExtrasOfBoth(); }
    RootGoesOn(cx, OVERLAID, SECTIONS, 0, map[], NOTHING);
    var one := map["a" := Read(cx, FIRST, At(Holding("b", EMPTY)), "a", NOTHING).1.value];
    RootGoesOn(cx, OVERLAID, SECTIONS, 1, one, NOTHING);
    var two := one["a.b" := Read(cx, SPARES, At(EMPTY), "a.b", NOTHING).1.value];
    RootGoesOn(cx, OVERLAID, SECTIONS, 2, two, NOTHING);
    var three := two["a.b.f" := Read(cx, LEAF_TYPE, At(EMPTY), "a.b.f", NOTHING).1.value];
    AllRead(cx, OVERLAID, SECTIONS, three);
    AllGiven(three);
    RootEnds(cx, OVERLAID, SECTIONS);
  }

  lemma AllGiven(got: map<string, Decoded>)
    requires "a" in got && "a.b" in got && "a.b.f" in got
    ensures Closed(OVERLAID, got).Ok?
  {
    hide Completed;
    assert FirstGap(OVERLAID.fields, got, 2) == 3;
    assert FirstGap(OVERLAID.fields, got, 1) == 3;
    assert FirstGap(OVERLAID.fields, got, 0) == 3;
  }

  /**
   * No field need be missing in both tables for a problem to be lost: the second table may have a
   * default for the field supplied to the first, and its type then asks in silence for a field that a
   * third table lacks. The checker reports that field.
   */
  lemma SilentAskLosesOne(whereabouts: string -> Option<Origin>)
    ensures var report := Driven(ReadingOf(OVERLAID, At(SECTIONS), "", whereabouts), START, 0);
            report.settled && report.value.Some? && report.problems == [MISSES]
    ensures Check(OVERLAID, At(SECTIONS), "") == [MISSES, LOST]
  {
    hide Read, Check, Driven;
    var rd := ReadingOf(OVERLAID, At(SECTIONS), "", whereabouts);
    NeedIsAsked();
    SpareIsAsked();
    NoneIsAsked();
    var st1, st2 := State([FIELD], {}, [], [MISSES], {}), State([FIELD, INSIDE], {}, [], [MISSES], {});
    assert rd.visit([], {}) == Read(Plan([], "", {}), OVERLAID, At(SECTIONS), "", NOTHING);
    assert rd.visit([FIELD], {}) == Read(Plan([FIELD], "", {}), OVERLAID, At(SECTIONS), "", NOTHING);
    assert rd.visit([FIELD, INSIDE], {}) == Read(Plan([FIELD, INSIDE], "", {}), OVERLAID, At(SECTIONS), "", NOTHING);
    assert TurnOf(rd, START) == Turn.Adds(st1) by {
      assert [] + [FIELD] == [FIELD] && [] + [MISSES] == [MISSES];
    }
    assert TurnOf(rd, st1) == Turn.Adds(st2) by {
      assert [FIELD] + [INSIDE] == [FIELD, INSIDE] && [MISSES] + [] == [MISSES];
    }
    assert TurnOf(rd, st2).Settles? && TurnOf(rd, st2).report.problems == [MISSES] by {
      assert [] + [] + ([MISSES] + []) == [MISSES];
    }
    ThreeTurns(rd, st1, st2);
    CheckOverlaid();
  }

  lemma ThreeTurns(rd: Reading, st1: State, st2: State)
    requires TurnOf(rd, START) == Turn.Adds(st1) && TurnOf(rd, st1) == Turn.Adds(st2) && TurnOf(rd, st2).Settles?
    ensures Driven(rd, START, 0) == TurnOf(rd, st2).report
  {
    hide TurnOf;
    assert Driven(rd, st1, 1) == Driven(rd, st2, 2);
  }

  lemma CheckOverlaid()
    ensures Check(OVERLAID, At(SECTIONS), "") == [MISSES, LOST]
  {
    hide Check, FindField;
    Spellings();
    FieldsFound();
    var t := At(SECTIONS);
    CheckBare(NEEDS.fields[0], "a.b");
    CheckOne(FIRST, NEEDS, "b", EMPTY, "a");
    CheckBare(SPARES.fields[0], "a.b");
    CheckBare(LEAF_TYPE.fields[0], "a.b.f");
    CheckTable(OVERLAID, t, "");
    assert CheckEntries(OVERLAID, t, "", 3) == [];
    assert CheckEntries(OVERLAID, t, "", 2) == [LOST] + [];
    assert CheckEntries(OVERLAID, t, "", 1) == [] + [LOST];
    assert CheckEntries(OVERLAID, t, "", 0) == [MISSES] + [LOST];
    NoneLacking();
  }

  lemma NoneLacking()
    ensures MissingFrom(OVERLAID.fields, At(SECTIONS), "", 0) == []
  {
    var entries := SECTIONS.value.entries;
    assert entries[0].key == "a" && entries[1].key == "a.b" && entries[2].key == "a.b.f";
    assert MissingFrom(OVERLAID.fields, At(SECTIONS), "", 3) == [];
    assert MissingFrom(OVERLAID.fields, At(SECTIONS), "", 2) == [];
    assert MissingFrom(OVERLAID.fields, At(SECTIONS), "", 1) == [];
  }
}
