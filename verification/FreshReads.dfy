/** What a pass never asks for, and never says. */
module FreshReads {
  import opened Trees
  import opened Schemas
  import opened Reader
  import opened Drivers

  /** None is the notice of a cut report. */
  predicate Quiet(problems: seq<Problem>) {
    forall i | 0 <= i < |problems| :: !problems[i].message.Truncated?
  }

  predicate Fresh(cx: Plan, log: Log) {
    && Quiet(log.problems)
    && (log.patch.Some? ==> log.patch.value.patch !in cx.patches && Quiet(Listed(log.patch.value.problem)))
    && (log.failed.Some? ==> log.failed.value.section !in cx.skipped)
  }

  /** An error that leaves an entry is no missing field still to be told of. */
  predicate Handled<T>(r: Result<T>) {
    r.Err? ==> r.error.recorded || r.error.kind.Custom?
  }

  lemma {:induction false} ReadFresh(cx: Plan, s: Schema, t: Target, path: string, log: Log)
    requires Fresh(cx, log)
    ensures Fresh(cx, Read(cx, s, t, path, log).0)
    decreases s, Held(t), 5, 0
  {
    hide ReadSeq, ReadTable, ReadScalar, RecordError, Mismatch, Fresh;
    MarkedFresh(cx, t, path, log);
    match s
    case SOption(inner) =>
      if t.At? && !t.node.value.Null? {
        ReadFresh(cx, inner, t, path, log);
        var (log1, r) := Read(cx, inner, t, path, log);
        RecordFresh(cx, t, path, if r.Ok? then Ok(DSome(r.value)) else r, log1);
      }
    case SMapped(inner, _) => ReadFresh(cx, inner, t, path, log);
    case SSeq(_) => SeqFresh(cx, s, t, path, log);
    case SAny =>
      if t.At? && t.node.value.Array? {
        SeqFresh(cx, s, t, path, log);
      } else if t.At? && t.node.value.Table? {
        TableFresh(cx, s, t, path, log);
      } else {
        MismatchFresh(cx, t, path, "a value", log);
      }
    case SMap(_) => TableFresh(cx, s, t, path, log);
    case SStruct(_) => TableFresh(cx, s, t, path, log);
    case _ => ScalarFresh(cx, s, t, path, log);
  }

  lemma RecordFresh<T>(cx: Plan, t: Target, path: string, r: Result<T>, log: Log)
    requires Fresh(cx, log)
    ensures Fresh(cx, RecordError(t, path, r, log).0)
  {
  }

  lemma MarkedFresh(cx: Plan, t: Target, path: string, log: Log)
    requires Fresh(cx, log)
    ensures Fresh(cx, Consumed(t, path, log))
  {
  }

  lemma MismatchFresh(cx: Plan, t: Target, path: string, what: string, log: Log)
    requires Fresh(cx, log)
    ensures Fresh(cx, Record(log, Mismatch(t, path, what)))
  {
  }

  lemma ScalarFresh(cx: Plan, s: Schema, t: Target, path: string, log: Log)
    requires IsScalarSchema(s) && Fresh(cx, log)
    ensures Fresh(cx, Record(Consumed(t, path, log), ReadScalar(s, t, path).problems))
  {
    hide ProbeOf, Placeholder;
  }

  lemma {:induction false} SeqFresh(cx: Plan, s: Schema, t: Target, path: string, log: Log)
    requires s.SSeq? || (s.SAny? && t.At? && t.node.value.Array?)
    requires Fresh(cx, log)
    ensures Fresh(cx, ReadSeq(cx, s, t, path, log).0)
    decreases s, Held(t), 1, 0
  {
    if t.At? && t.node.value.Array? {
      ItemsFresh(cx, s, t, path, 0, [], log);
    }
  }

  lemma {:induction false} ItemsFresh(cx: Plan, s: Schema, t: Target, path: string, i: nat, got: seq<Decoded>, log: Log)
    requires s.SSeq? || s.SAny?
    requires t.At? && t.node.value.Array? && i <= |t.node.value.items|
    requires Fresh(cx, log)
    ensures Fresh(cx, ReadItems(cx, s, t, path, i, got, log).0)
    decreases s, Held(t), 0, |t.node.value.items| - i
  {
    hide Read;
    if i < |t.node.value.items| {
      var item := At(t.node.value.items[i]);
      ReadFresh(cx, ElementOf(s), item, JoinIndex(path, i), log);
      var (log1, r) := Read(cx, ElementOf(s), item, JoinIndex(path, i), log);
      if r.Ok? {
        ItemsFresh(cx, s, t, path, i + 1, got + [r.value], log1);
      }
    }
  }

  lemma {:induction false} NextFresh(cx: Plan, s: Schema, t: Target, base: string, path: string, log: Log)
    requires Fresh(cx, log)
    ensures Fresh(cx, NextValue(cx, s, t, base, path, log).0)
    ensures Handled(NextValue(cx, s, t, base, path, log).1)
    decreases s, Held(t), 6, 0
  {
    hide Read;
    ReadFresh(cx, s, t, path, log);
  }

  /** Every key the type reads that is not set aside is among the values. */
  predicate Supplied(cx: Plan, s: Schema, t: Target, path: string, i: nat, got: map<string, Decoded>) {
    i <= |EntriesOf(t)| &&
    forall a | 0 <= a < i && Reads(s, EntriesOf(t)[a].key) && !SetAside(cx, path, EntriesOf(t)[a].key) ::
      EntriesOf(t)[a].key in got
  }

  lemma SuppliedPassed(cx: Plan, s: Schema, t: Target, path: string, i: nat, got: map<string, Decoded>)
    requires Supplied(cx, s, t, path, i, got) && i < |EntriesOf(t)|
    requires SetAside(cx, path, EntriesOf(t)[i].key) || !Reads(s, EntriesOf(t)[i].key)
    ensures Supplied(cx, s, t, path, i + 1, got)
  {
  }

  lemma SuppliedNext(cx: Plan, s: Schema, t: Target, path: string, i: nat, got: map<string, Decoded>, value: Decoded)
    requires Supplied(cx, s, t, path, i, got) && i < |EntriesOf(t)|
    ensures Supplied(cx, s, t, path, i + 1, got[EntriesOf(t)[i].key := value])
  {
  }

  lemma {:induction false} EntriesFresh(cx: Plan, s: Schema, t: Target, path: string, i: nat,
      got: map<string, Decoded>, log: Log)
    requires IsTable(s) && i <= |EntriesOf(t)| && Fresh(cx, log) && Supplied(cx, s, t, path, i, got)
    ensures Fresh(cx, ReadEntries(cx, s, t, path, i, got, log).0)
    ensures Handled(ReadEntries(cx, s, t, path, i, got, log).1)
    ensures var r := ReadEntries(cx, s, t, path, i, got, log).1;
            r.Ok? ==> Supplied(cx, s, t, path, |EntriesOf(t)|, r.value)
    decreases s, Held(t), 3, |EntriesOf(t)| - i
  {
    hide Read, NextValue, Fresh, Supplied;
    if i < |EntriesOf(t)| {
      var key := EntriesOf(t)[i].key;
      if SetAside(cx, path, key) || !Reads(s, key) {
        SuppliedPassed(cx, s, t, path, i, got);
        EntriesFresh(cx, s, t, path, i + 1, got, log);
      } else if !Taken(s, key, got) {
        NextFresh(cx, Under(s, key), At(EntriesOf(t)[i].node), path, JoinKey(path, key), log);
        var (log1, r) := NextValue(cx, Under(s, key), At(EntriesOf(t)[i].node), path, JoinKey(path, key), log);
        if r.Ok? {
          SuppliedNext(cx, s, t, path, i, got, r.value);
          EntriesFresh(cx, s, t, path, i + 1, got[key := r.value], log1);
        }
      }
    }
  }

  lemma {:induction false} ExtrasFresh(cx: Plan, s: Schema, t: Target, path: string, extras: seq<string>, i: nat,
      got: map<string, Decoded>, log: Log)
    requires IsTable(s) && i <= |extras| && (s.SAny? ==> t.At? && t.node.value.Table?) && Fresh(cx, log)
    ensures Fresh(cx, ReadExtras(cx, s, t, path, extras, i, got, log).0)
    ensures Handled(ReadExtras(cx, s, t, path, extras, i, got, log).1)
    ensures var r := ReadExtras(cx, s, t, path, extras, i, got, log).1;
            r.Ok? ==>
              && got.Keys <= r.value.Keys
              && forall a | i <= a < |extras| && Reads(s, extras[a]) :: extras[a] in r.value
    decreases s, Held(t), 3, |extras| - i
  {
    hide Read, NextValue;
    if i < |extras| {
      var key := extras[i];
      if !Reads(s, key) {
        ExtrasFresh(cx, s, t, path, extras, i + 1, got, log);
      } else if !Taken(s, key, got) {
        if s.SAny? {
          ExtrasFresh(cx, s, t, path, extras, i + 1, got[key := DRaw(Null)], log);
        } else {
          NextFresh(cx, Under(s, key), Absent(true, OriginOf(t)), path, JoinKey(path, key), log);
          var (log1, r) := NextValue(cx, Under(s, key), Absent(true, OriginOf(t)), path, JoinKey(path, key), log);
          if r.Ok? {
            ExtrasFresh(cx, s, t, path, extras, i + 1, got[key := r.value], log1);
          }
        }
      }
    }
  }

  lemma {:induction false} PatchedIsExtra(patches: seq<Patch>, path: string, field: string, entries: seq<Entry>)
    requires Patch(path, field) in patches && !HasKey(entries, field)
    ensures field in Extras(patches, path, entries)
  {
    if patches[0] != Patch(path, field) {
      PatchedIsExtra(patches[1..], path, field, entries);
    }
  }

  lemma {:induction false} TableFresh(cx: Plan, s: Schema, t: Target, path: string, log: Log)
    requires IsTable(s) && (s.SAny? ==> t.At? && t.node.value.Table?) && Fresh(cx, log)
    ensures Fresh(cx, ReadTable(cx, s, t, path, log).0)
    decreases s, Held(t), 4, 0
  {
    hide Read, NextValue, ReadEntries, ReadExtras, Extras, TableResult, Closed, Fresh, Mismatch;
    var log1 := Record(log, NotATable(t, path));
    assert Fresh(cx, log1) by { NoTableFresh(cx, t, path, log); }
    assert Supplied(cx, s, t, path, 0, map[]);
    EntriesFresh(cx, s, t, path, 0, map[], log1);
    var (log2, r2) := ReadEntries(cx, s, t, path, 0, map[], log1);
    if r2.Err? {
      EndFresh(cx, t, path, Err(r2.error), log2);
    } else {
      var extras := Extras(cx.patches, path, EntriesOf(t));
      ExtrasFresh(cx, s, t, path, extras, 0, r2.value, log2);
      var (log3, r3) := ReadExtras(cx, s, t, path, extras, 0, r2.value, log2);
      if r3.Ok? {
        ClosedFresh(cx, s, t, path, r2.value, r3.value);
      }
      EndFresh(cx, t, path, if r3.Err? then Err(r3.error) else Closed(s, r3.value), log3);
    }
  }

  lemma NoTableFresh(cx: Plan, t: Target, path: string, log: Log)
    requires Fresh(cx, log)
    ensures Fresh(cx, Record(log, NotATable(t, path)))
  {
  }

  /** A field asked for is one no patch supplies. */
  lemma EndFresh(cx: Plan, t: Target, path: string, r: Result<Decoded>, log: Log)
    requires Fresh(cx, log)
    requires r.Err? && r.error.kind.Missing? && !r.error.recorded && !SetAside(cx, path, r.error.kind.field) ==>
               Patch(path, r.error.kind.field) !in cx.patches
    ensures Fresh(cx, TableResult(cx, t, path, r, log).0)
  {
  }

  lemma ClosedFresh(cx: Plan, s: Schema, t: Target, path: string, before: map<string, Decoded>,
      got: map<string, Decoded>)
    requires IsTable(s) && Supplied(cx, s, t, path, |EntriesOf(t)|, before) && before.Keys <= got.Keys
    requires forall a | 0 <= a < |Extras(cx.patches, path, EntriesOf(t))| &&
             Reads(s, Extras(cx.patches, path, EntriesOf(t))[a]) ::
               Extras(cx.patches, path, EntriesOf(t))[a] in got
    ensures var r := Closed(s, got);
            r.Err? && r.error.kind.Missing? && !SetAside(cx, path, r.error.kind.field) ==>
              Patch(path, r.error.kind.field) !in cx.patches
  {
    hide Extras, SetAside;
    var fields := FieldsOf(s);
    var gap := FirstGap(fields, got, 0);
    GapIsGap(fields, got, 0);
    if gap < |fields| && GivenFor(fields[gap]).Required? {
      var name := fields[gap].name;
      assert Reads(s, name) by {
        assert FindField(fields, name) <= gap;
      }
      if HasKey(EntriesOf(t), name) {
        var a := FindKey(EntriesOf(t), name);
        assert EntriesOf(t)[a].key == name;
      } else if Patch(path, name) in cx.patches {
        PatchedIsExtra(cx.patches, path, name, EntriesOf(t));
      }
    }
  }

  lemma {:induction false} GapIsGap(fields: seq<Field>, got: map<string, Decoded>, i: nat)
    requires i <= |fields|
    ensures var j := FirstGap(fields, got, i); j < |fields| ==> fields[j].name !in got && !GivenFor(fields[j]).Value?
    decreases |fields| - i
  {
    if i < |fields| {
      GapIsGap(fields, got, i + 1);
    }
  }

  /** One pass of the read of `t` as `s`. */
  function PassesOf(s: Schema, t: Target, path: string): Visit {
    (patches, skipped) => Read(Plan(patches, path, skipped), s, t, path, NOTHING)
  }

  /** The passes of any schema name a fresh section, and ask for a field not supplied. */
  lemma PassesAreFresh(s: Schema, t: Target, path: string)
    ensures NamesFresh(PassesOf(s, t, path))
    ensures forall patches, skipped {:trigger PassesOf(s, t, path)(patches, skipped)} ::
              PassesOf(s, t, path)(patches, skipped).0.patch.Some? ==>
              PassesOf(s, t, path)(patches, skipped).0.patch.value.patch !in patches
  {
    hide Read;
    forall patches, skipped
      ensures Fresh(Plan(patches, path, skipped), PassesOf(s, t, path)(patches, skipped).0)
    {
      ReadFresh(Plan(patches, path, skipped), s, t, path, NOTHING);
    }
  }

  // ---- No pass writes the notice of a cut report ----

  ghost predicate QuietVisits(visit: Visit) {
    forall patches, skipped {:trigger visit(patches, skipped)} ::
      && Quiet(visit(patches, skipped).0.problems)
      && (visit(patches, skipped).0.patch.Some? ==> Quiet(Listed(visit(patches, skipped).0.patch.value.problem)))
  }

  lemma PassesAreQuiet(s: Schema, t: Target, path: string)
    ensures QuietVisits(PassesOf(s, t, path))
  {
    hide Read;
    forall patches, skipped
      ensures Fresh(Plan(patches, path, skipped), PassesOf(s, t, path)(patches, skipped).0)
    {
      ReadFresh(Plan(patches, path, skipped), s, t, path, NOTHING);
    }
  }

  lemma {:induction false} DrivenQuiet(rd: Reading, st: State, pass: nat)
    requires pass <= MAX_PASSES && QuietVisits(rd.visit) && Quiet(st.held) && Quiet(st.missing)
    ensures Quiet(Driven(rd, st, pass).problems)
    decreases MAX_PASSES - pass
  {
    assert Quiet(rd.visit(st.patches, st.skipped).0.problems);
    if TurnOf(rd, st).Adds? && pass < MAX_PASSES {
      DrivenQuiet(rd, TurnOf(rd, st).next, pass + 1);
    }
  }
}
