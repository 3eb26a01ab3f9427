/** Types that map their input after reading it, and what the report says of their values. */
module MappedTypes {
  import opened Options
  import opened Trees
  import opened Schemas
  import opened Meanings
  import opened Reader
  import opened Walks
  import opened PathOrder
  import opened Events
  import opened Simulation
  import opened CleanReads
  import opened CleanKeys
  import opened Drivers
  import opened ReportLaws
  import opened Checks
  import opened Sections
  import opened RefusalLaws
  import opened Exceptions

  /** The read of the inner type gave a value the mapping refuses, or stopped on a refusal no problem tells of. */
  predicate Screens(takes: Decoded -> bool, tr: Trace<Decoded>) {
    match tr.end
    case Done(value) => !takes(value)
    case Stop(recorded, _) => !recorded
  }

  /**
   * For any inner type and any node: the value is told of as the inner type tells of it, and then
   * once more, as refused, exactly when the mapping refuses what the inner read gave. What it gave
   * may be a placeholder for a value already told of.
   */
  lemma MappedTells(inner: Schema, takes: Decoded -> bool, t: Target, path: string)
    ensures var tr := Walk(inner, t, path, {});
            Reports(WalkEntry(SMapped(inner, takes), t, path).events) ==
              Reports(tr.events) +
                if !Silent(t) && Screens(takes, tr) then [Problem(path, OriginOf(t), Message.Refused)] else []
  {
    hide Walk, Reports;
    MappedWalk(SMapped(inner, takes), t, path, {});
    ToldTells(t, path, Screened(takes, Walk(inner, t, path, {})));
  }

  // ---- Values told of twice ----

  /**
   * A scalar that means nothing as the inner type, of the wrong kind or out of its range, is told of
   * again exactly when the mapping refuses what stands in its place: false, zero or the empty string.
   */
  lemma IllTypedToldAgain(inner: Schema, takes: Decoded -> bool, node: Node, path: string)
    requires IsScalarSchema(inner) && !inner.SLeaf? && !Fits(inner, node)
    ensures Reports(WalkEntry(SMapped(inner, takes), At(node), path).events) ==
              [Problem(path, Some(node.origin), WrongWith(inner, node.value))] +
              if takes(Blank(inner)) then [] else [Problem(path, Some(node.origin), Message.Refused)]
  {
    hide ReadScalar, AllFound, WrongWith, Fits;
    MappedTells(inner, takes, At(node), path);
    BlankInstead(inner, node, path);
    AllFoundParts([Problem(path, Some(node.origin), WrongWith(inner, node.value))]);
  }

  /** ... so an integer, or environment text that spells one, which the type does not hold. */
  lemma OutOfRangeToldAgain(width: IntType, takes: Decoded -> bool, node: Node, path: string, n: int)
    requires IsInteger(node.value, n) && !InRange(width, n)
    ensures Reports(WalkEntry(SMapped(SInt(width), takes), At(node), path).events) ==
              [Problem(path, Some(node.origin), OutOfRange(width))] +
              if takes(DInt(0)) then [] else [Problem(path, Some(node.origin), Message.Refused)]
  {
    OutOfRangeMeansNothing(width, node, n);
    IllTypedToldAgain(SInt(width), takes, node, path);
  }

  /** ... and what is no array where one is wanted. */
  lemma NoArrayToldAgain(element: Schema, takes: Decoded -> bool, node: Node, path: string)
    requires !node.value.Array?
    ensures Reports(WalkEntry(SMapped(SSeq(element), takes), At(node), path).events) ==
              Mismatch(At(node), path, "an array") +
              if takes(DSeq([])) then [] else [Problem(path, Some(node.origin), Message.Refused)]
  {
    MappedTells(SSeq(element), takes, At(node), path);
    hide AllFound;
    AllFoundParts(Mismatch(At(node), path, "an array"));
  }

  /**
   * ... and any table that lacks a field its struct needs: the field is told of as missing, and then
   * the table as refused, exactly when the mapping refuses it with the placeholders in place.
   */
  lemma MissingFieldToldAgain(fields: seq<Field>, takes: Decoded -> bool, node: Node, path: string, j: nat)
    requires node.value.Table? && UniqueNames(fields) && j < |fields| && Lacks(fields[j], At(node))
    requires Walk(SStruct(fields), At(node), path, {}).end.Done?
    ensures var tr := Walk(SStruct(fields), At(node), path, {});
            var told := Reports(WalkEntry(SMapped(SStruct(fields), takes), At(node), path).events);
            && MissingAt(At(node), path, fields[j]) in told
            && told == Reports(tr.events) +
            if takes(tr.end.value) then [] else [Problem(path, Some(node.origin), Message.Refused)]
  {
    hide Walk, Lacks, Reports;
    MappedTells(SStruct(fields), takes, At(node), path);
    LackIsTold(fields, node, path, j);
  }

  lemma LackIsTold(fields: seq<Field>, node: Node, path: string, j: nat)
    requires node.value.Table? && UniqueNames(fields) && j < |fields| && Lacks(fields[j], At(node))
    requires Walk(SStruct(fields), At(node), path, {}).end.Done?
    ensures MissingAt(At(node), path, fields[j]) in Reports(Walk(SStruct(fields), At(node), path, {}).events)
  {
    hide WalkEntries, WalkGaps, Reports, Founds, Lacks;
    var s, t := SStruct(fields), At(node);
    TableWalk(s, t, path, {});
    var entries := WalkEntries(s, t, path, {}, 0, map[]);
    var gaps := WalkGaps(s, t, path, 0, entries.end.value);
    assert fields[j].name !in entries.end.value by {
      LacksSays(fields[j], t);
      EntriesOnly(s, t, path, 0, map[], fields[j].name);
    }
    GapIsTold(s, t, path, 0, j, entries.end.value);
    var first := AllFound(NotATable(t, path));
    ReportsAppend(entries.events, gaps.events);
    ReportsAppend(first, entries.events + gaps.events);
  }

  /** The walk of the entries has values for entries only. */
  lemma {:induction false} EntriesOnly(s: Schema, t: Target, path: string, i: nat, got: map<string, Decoded>,
      name: string)
    requires IsTable(s) && i <= |EntriesOf(t)| && NotFrom(EntriesOf(t), i, name) && name !in got
    ensures var tr := WalkEntries(s, t, path, {}, i, got); tr.end.Done? ==> name !in tr.end.value
    decreases |EntriesOf(t)| - i
  {
    hide WalkEntry;
    if i < |EntriesOf(t)| {
      var key := EntriesOf(t)[i].key;
      if !Reads(s, key) {
        EntriesOnly(s, t, path, i + 1, got, name);
      } else if !Taken(s, key, got) {
        var tr := WalkEntry(Under(s, key), At(EntriesOf(t)[i].node), JoinKey(path, key));
        if tr.end.Done? {
          EntriesOnly(s, t, path, i + 1, got[key := tr.end.value], name);
        }
      }
    }
  }

  /** A walk of the missing fields that ends with a value has told of each. */
  lemma {:induction false} GapIsTold(s: Schema, t: Target, path: string, from: nat, j: nat, got: map<string, Decoded>)
    requires s.SStruct? && UniqueNames(s.fields) && from <= j < |s.fields| && t.At? && t.node.value.Table?
    requires Lacks(s.fields[j], t) && s.fields[j].name !in got && WalkGaps(s, t, path, from, got).end.Done?
    ensures MissingAt(t, path, s.fields[j]) in Reports(WalkGaps(s, t, path, from, got).events)
    decreases j - from
  {
    hide WalkSupplied, Reports, Founds, Lacks;
    var f := s.fields[from];
    if f.name in got || GivenFor(f).Value? {
      LacksSays(s.fields[j], t);
      GapIsTold(s, t, path, from + 1, j, got);
    } else {
      var tr := WalkSupplied(f, t, path);
      var more := got[f.name := tr.end.value];
      ReportsAppend(tr.events, WalkGaps(s, t, path, from + 1, more).events);
      if from == j {
        SuppliedTells(f, t, path);
      } else {
        GapIsTold(s, t, path, from + 1, j, more);
      }
    }
  }

  // ---- In the driver's report ----

  /** Of the sections, only the one at `i` tells of anything at its path. */
  lemma {:induction false} ToldBySection(s: Schema, t: Target, path: string, i: nat, j: nat, p: Problem)
    requires IsTable(s) && NameableTable(s, t) && ReadsAt(s, t, i) && p.path == PathAt(t, path, i) &&
             j <= |EntriesOf(t)|
    ensures multiset(Reports(SectionEvents(s, t, path, j)))[p] ==
            if j <= i then multiset(Reports(SectionTrace(s, t, path, i).events))[p] else 0
    decreases |EntriesOf(t)| - j
  {
    hide WalkEntry, SectionTrace, NameableTable, Reports;
    NoEvents();
    if j < |EntriesOf(t)| {
      ToldBySection(s, t, path, i, j + 1, p);
      if ReadsAt(s, t, j) {
        var here := SectionTrace(s, t, path, j).events;
        ReportsAppend(here, SectionEvents(s, t, path, j + 1));
        if j != i {
          OtherSection(s, t, path, i, j, p);
        }
      } else {
        assert [] + SectionEvents(s, t, path, j + 1) == SectionEvents(s, t, path, j + 1);
      }
    }
  }

  lemma OtherSection(s: Schema, t: Target, path: string, i: nat, j: nat, p: Problem)
    requires IsTable(s) && NameableTable(s, t) && ReadsAt(s, t, i) && ReadsAt(s, t, j) && i != j &&
             p.path == PathAt(t, path, i)
    ensures p !in Reports(SectionTrace(s, t, path, j).events)
  {
    hide Walk, Reports, NameableTable, Beneath, CleanKey;
    var mine, other := EntriesOf(t)[i].key, EntriesOf(t)[j].key;
    NameableEntry(s, t, i);
    NameableEntry(s, t, j);
    assert mine != other;
    EntryUnder(Under(s, other), At(EntriesOf(t)[j].node), PathAt(t, path, j));
    var problems := Reports(SectionTrace(s, t, path, j).events);
    UnderKey(problems, path, other);
    assert NoneUnder(problems, JoinKey(path, mine));
    AtItself(p.path);
  }

  /** The fields after the sections are told of as missing, or as nothing. */
  lemma {:induction false} GapsTellMissing(s: Schema, t: Target, path: string, j: nat, got: map<string, Decoded>)
    requires IsTable(s) && j <= |FieldsOf(s)|
    ensures forall p | p in Reports(WalkGaps(s, t, path, j, got).events) :: p.message.MissingField?
    decreases |FieldsOf(s)| - j
  {
    hide WalkSupplied, Reports;
    NoEvents();
    if j < |FieldsOf(s)| {
      var f := FieldsOf(s)[j];
      if f.name in got || GivenFor(f).Value? {
        GapsTellMissing(s, t, path, j + 1, got);
      } else if GivenFor(f).Required? && !HasKey(EntriesOf(t), f.name) {
        var tr := WalkSupplied(f, t, path);
        SuppliedTellsMissing(f, t, path);
        if tr.end.Done? {
          var more := got[f.name := tr.end.value];
          GapsTellMissing(s, t, path, j + 1, more);
          ReportsAppend(tr.events, WalkGaps(s, t, path, j + 1, more).events);
        }
      }
    }
  }

  lemma SuppliedTellsMissing(f: Field, t: Target, path: string)
    ensures forall p | p in Reports(WalkSupplied(f, t, path).events) :: p.message.MissingField?
  {
    hide Walk;
    var below := Absent(true, OriginOf(t));
    SilentWalk(f.schema, below, JoinKey(path, f.name), {});
    SilentEntry(f.schema, below, JoinKey(path, f.name));
    var fill := [Fill(NewPatch(Patch(path, f.name), MissingProblem(t, path, f.name)))];
    assert fill[1..] == [];
    ReportsAppend(fill, WalkEntry(f.schema, below, JoinKey(path, f.name)).events);
  }

  /** The whole report tells of a section's refusal as often as the section does. */
  lemma RefusedInWhole(s: Schema, t: Target, path: string, i: nat, p: Problem)
    requires (s.SMap? || s.SStruct?) && NameableTable(s, t) && ReadsAt(s, t, i)
    requires p.path == PathAt(t, path, i) && p.message == Message.Refused
    ensures multiset(WholeReport(s, t, path))[p] == multiset(Reports(SectionTrace(s, t, path, i).events))[p]
  {
    hide WalkGaps, SectionEvents, SectionTrace, SectionValues, Reports, NameableTable, WholeReport;
    ToldBySection(s, t, path, i, 0, p);
    GapsTellMissing(s, t, path, 0, SectionValues(s, t, path, 0, map[]));
    WholeParts(s, t, path);
    BelowItself(s, t, path, i);
  }

  lemma BelowItself(s: Schema, t: Target, path: string, i: nat)
    requires IsTable(s) && NameableTable(s, t) && ReadsAt(s, t, i)
    ensures path != PathAt(t, path, i)
  {
    hide NameableTable;
    NameableEntry(s, t, i);
    AtItself(PathAt(t, path, i));
    KeyBeneath(path, EntriesOf(t)[i].key, PathAt(t, path, i));
  }

  /**
   * Of the driver's report: it has all a section of a mapped type tells of, the second telling
   * included. Where keys are clean, the section's refusal is listed as often as the inner type lists
   * it, and once more exactly when the mapping refuses.
   */
  lemma MappedReported(s: Schema, t: Target, path: string, whereabouts: string -> Option<Origin>, i: nat)
    requires (Core(s).SMap? || Core(s).SStruct?) && CleanRead(s, t, path) && Needed(s, t, path) <= MAX_PASSES
    requires ReadsAt(Core(s), t, i) && Under(Core(s), EntriesOf(t)[i].key).SMapped?
    ensures var mapped, node, here := Under(Core(s), EntriesOf(t)[i].key), EntriesOf(t)[i].node, PathAt(t, path, i);
            var tr := Walk(mapped.inner, At(node), here, {});
            var refused, screens := Problem(here, Some(node.origin), Message.Refused), Screens(mapped.takes, tr);
            var problems := Driven(ReadingOf(s, t, path, whereabouts), START, 0).problems;
            && multiset(Reports(tr.events) + if screens then [refused] else []) <= multiset(problems)
            && (Nameable(s, t) ==>
              multiset(problems)[refused] == multiset(Reports(tr.events))[refused] + if screens then 1 else 0)
  {
    hide Walk, Driven, Needed, WholeReport, Whole, Reports, Screens, Nameable, NameableTable, UniqueRead, Apart, Places;
    var mapped, node, here := Under(Core(s), EntriesOf(t)[i].key), EntriesOf(t)[i].node, PathAt(t, path, i);
    SectionReport(s, t, path, whereabouts);
    MappedTells(mapped.inner, mapped.takes, At(node), here);
    NoSectionIsLost(s, t, path, whereabouts, i);
    if Nameable(s, t) {
      TableUnwraps(s, t);
      CoreNameable(s, t);
      RefusedInWhole(Core(s), t, path, i, Problem(here, Some(node.origin), Message.Refused));
      BelowItself(Core(s), t, path, i);
      WholeOuter(s, t, path);
    }
  }

  lemma {:induction false} TableUnwraps(s: Schema, t: Target)
    requires t.At? && t.node.value.Table?
    ensures Unwraps(s, t)
  {
    if s.SOption? {
      TableUnwraps(s.inner, t);
    } else if s.SMapped? {
      TableUnwraps(s.inner, t);
    }
  }
}
