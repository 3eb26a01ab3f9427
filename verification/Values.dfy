/** The value a problem-free read yields. */
module ValueLaws {
  import opened Trees
  import opened Schemas
  import opened Meanings
  import opened Reader
  import opened Walks
  import opened Events
  import opened CleanReads
  import opened Simulation
  import opened Sections
  import opened ReportLaws
  import opened RefusalLaws
  import opened Checks

  predicate Silently<T>(tr: Trace<T>) {
    tr.end.Done? && Reports(tr.events) == []
  }

  lemma SilentlyBefore<T>(events: seq<Event>, tr: Trace<T>)
    requires Silently(Before(events, tr))
    ensures Reports(events) == [] && Silently(tr)
  {
    hide Founds;
    ReportsAppend(events, tr.events);
  }

  /** A read that ends with a value and tells of nothing yields what the node holds. */
  lemma {:induction false} ReadIsTrue(s: Schema, node: Node, path: string)
    requires UniqueRead(s, At(node)) && Silently(Walk(s, At(node), path, {}))
    ensures Represents(s, Walk(s, At(node), path, {}).end.value, node)
    decreases s, node, 5, 0
  {
    var t := At(node);
    match s
    case SOption(inner) =>
      if !node.value.Null? {
        OptionIs(s, t, path);
        ReadIsTrue(inner, node, path);
      }
    case SMapped(inner, _) => ReadIsTrue(inner, node, path);
    case SSeq(_) => SeqIsTrue(s, node, path);
    case SAny =>
      if node.value.Array? {
        SeqIsTrue(s, node, path);
      } else if node.value.Table? {
        TableIsTrue(s, node, path);
      }
    case SMap(_) => TableIsTrue(s, node, path);
    case SStruct(_) => TableIsTrue(s, node, path);
    case _ => ScalarIsTrue(s, node, path);
  }

  lemma OptionIs(s: Schema, t: Target, path: string)
    requires s.SOption? && t.At? && !t.node.value.Null? && Silently(Walk(s, t, path, {}))
    ensures Silently(Walk(s.inner, t, path, {})) &&
            Walk(s, t, path, {}).end.value == DSome(Walk(s.inner, t, path, {}).end.value)
  {
    hide Reports;
    assert Walk(s, t, path, {}) == Optional(t, path, Walk(s.inner, t, path, {}));
  }

  lemma ScalarIsTrue(s: Schema, node: Node, path: string)
    requires IsScalarSchema(s) && Silently(Walk(s, At(node), path, {}))
    ensures Represents(s, Walk(s, At(node), path, {}).end.value, node)
  {
    hide Spells, InRange, ParsedInt;
    AllFoundParts(ReadScalar(s, At(node), path).problems);
    var v := Walk(s, At(node), path, {}).end.value;
    if s.SInt? {
      RangesAre(s.width, v.number);
      if node.value.Text? {
        ParsedIntIs(node.value.text, v.number);
      }
    }
  }

  lemma {:induction false} SeqIsTrue(s: Schema, node: Node, path: string)
    requires (s.SSeq? && UniqueItems(s, At(node))) || (s.SAny? && node.value.Array? && UniqueItems(s, At(node)))
    requires Silently(WalkSeq(s, At(node), path))
    ensures node.value.Array?
    ensures var v := WalkSeq(s, At(node), path).end.value;
            v.DSeq? && |v.items| == |node.value.items| &&
            forall i | 0 <= i < |v.items| :: Represents(ElementOf(s), v.items[i], node.value.items[i])
    decreases s, node, 1, 0
  {
    if node.value.Array? {
      assert At(node).node == node;
      ItemsAreTrue(s, node, path, 0, []);
    } else {
      AllFoundParts(Mismatch(At(node), path, "an array"));
      assert false;
    }
  }

  lemma {:induction false} ItemsAreTrue(s: Schema, node: Node, path: string, i: nat, got: seq<Decoded>)
    requires (s.SSeq? || s.SAny?) && node.value.Array? && i == |got| <= |node.value.items| && UniqueItems(s, At(node))
    requires Silently(WalkItems(s, At(node), path, i, got))
    requires forall k | 0 <= k < i :: Represents(ElementOf(s), got[k], node.value.items[k])
    ensures var v := WalkItems(s, At(node), path, i, got).end.value;
            v.DSeq? && |v.items| == |node.value.items| &&
            forall k | 0 <= k < |v.items| :: Represents(ElementOf(s), v.items[k], node.value.items[k])
    decreases s, node, 0, |node.value.items| - i
  {
    hide Walk, UniqueRead, Represents, Founds, Reports;
    var items := node.value.items;
    if i < |items| {
      assert ItemsOf(At(node))[i] == items[i];
      var tr := Walk(ElementOf(s), At(items[i]), JoinIndex(path, i), {});
      var more := WalkItems(s, At(node), path, i + 1, got + [tr.end.value]);
      SilentlyBefore(tr.events, more);
      ReadIsTrue(ElementOf(s), items[i], JoinIndex(path, i));
      ItemsAreTrue(s, node, path, i + 1, got + [tr.end.value]);
    }
  }

  // ---- Tables ----

  /** The entries before `i` that the type knows have their values, and nothing else has. */
  ghost predicate HeldSoFar(s: Schema, node: Node, i: nat, got: map<string, Decoded>)
    requires IsTable(s) && node.value.Table? && i <= |node.value.entries|
  {
    && (forall a | 0 <= a < i && Reads(s, node.value.entries[a].key) ::
          node.value.entries[a].key in got &&
          Represents(Under(s, node.value.entries[a].key), got[node.value.entries[a].key], node.value.entries[a].node))
    && (forall key | key in got :: Reads(s, key) && exists a | 0 <= a < i :: node.value.entries[a].key == key)
  }

  lemma {:induction false} EntriesAreTrue(s: Schema, node: Node, path: string, i: nat, got: map<string, Decoded>)
    requires IsTable(s) && node.value.Table? && i <= |node.value.entries| && UniqueTable(s, At(node)) &&
             HeldSoFar(s, node, i, got)
    requires Silently(WalkEntries(s, At(node), path, {}, i, got))
    ensures HeldSoFar(s, node, |node.value.entries|, WalkEntries(s, At(node), path, {}, i, got).end.value)
    decreases s, node, 3, |node.value.entries| - i
  {
    hide WalkEntry, UniqueRead, UniqueTable, Represents, Founds, Reports, HeldSoFar;
    var entries := node.value.entries;
    if i < |entries| {
      var key := entries[i].key;
      if !Reads(s, key) {
        HeldPassed(s, node, i, got);
        EntriesAreTrue(s, node, path, i + 1, got);
      } else {
        UniqueEntry(s, At(node), i);
        var tr := WalkEntry(Under(s, key), At(entries[i].node), JoinKey(path, key));
        EntryGoesOn(s, node, path, i, got);
        var more := WalkEntries(s, At(node), path, {}, i + 1, got[key := tr.end.value]);
        SilentlyBefore(tr.events, more);
        EntryIs(Under(s, key), entries[i].node, JoinKey(path, key));
        ReadIsTrue(Under(s, key), entries[i].node, JoinKey(path, key));
        HeldNext(s, node, i, got, tr.end.value);
        EntriesAreTrue(s, node, path, i + 1, got[key := tr.end.value]);
      }
    }
  }

  /** The walk of the entries that ends with values went on past entry `i`. */
  lemma EntryGoesOn(s: Schema, node: Node, path: string, i: nat, got: map<string, Decoded>)
    requires IsTable(s) && node.value.Table? && i < |node.value.entries| && Reads(s, node.value.entries[i].key)
    requires WalkEntries(s, At(node), path, {}, i, got).end.Done?
    ensures var key := node.value.entries[i].key;
            var tr := WalkEntry(Under(s, key), At(node.value.entries[i].node), JoinKey(path, key));
            && tr.end.Done?
            && WalkEntries(s, At(node), path, {}, i, got) ==
              Before(tr.events, WalkEntries(s, At(node), path, {}, i + 1, got[key := tr.end.value]))
  {
    hide WalkEntry, Founds;
  }

  lemma EntryIs(s: Schema, node: Node, path: string)
    requires WalkEntry(s, At(node), path).end.Done? && Reports(WalkEntry(s, At(node), path).events) == []
    ensures Silently(Walk(s, At(node), path, {})) &&
            WalkEntry(s, At(node), path).end.value == Walk(s, At(node), path, {}).end.value
  {
    hide Walk, Reports;
  }

  lemma HeldPassed(s: Schema, node: Node, i: nat, got: map<string, Decoded>)
    requires IsTable(s) && node.value.Table? && i < |node.value.entries| && HeldSoFar(s, node, i, got) &&
             !Reads(s, node.value.entries[i].key)
    ensures HeldSoFar(s, node, i + 1, got)
  {
    hide Represents;
  }

  lemma HeldNext(s: Schema, node: Node, i: nat, got: map<string, Decoded>, value: Decoded)
    requires IsTable(s) && node.value.Table? && i < |node.value.entries| && HeldSoFar(s, node, i, got) &&
             UniqueTable(s, At(node))
    requires Reads(s, node.value.entries[i].key) &&
             Represents(Under(s, node.value.entries[i].key), value, node.value.entries[i].node)
    ensures HeldSoFar(s, node, i + 1, got[node.value.entries[i].key := value])
  {
    hide Represents, UniqueTable;
    var entries, more := node.value.entries, got[node.value.entries[i].key := value];
    assert UniqueKeys(entries) by { UniqueInTable(s, node); }
    forall a | 0 <= a < i + 1 && Reads(s, entries[a].key)
      ensures entries[a].key in more && Represents(Under(s, entries[a].key), more[entries[a].key], entries[a].node)
    {
      if a < i {
        assert entries[a].key != entries[i].key;
      }
    }
    forall key | key in more
      ensures exists a | 0 <= a < i + 1 :: entries[a].key == key
    {
      if key != entries[i].key {
        var a :| 0 <= a < i && entries[a].key == key;
      } else {
        assert entries[i].key == key;
      }
    }
  }

  lemma UniqueInTable(s: Schema, node: Node)
    requires IsTable(s) && node.value.Table? && UniqueTable(s, At(node))
    ensures UniqueKeys(node.value.entries)
  {
    hide UniqueRead;
  }

  /** With nothing missing told of, every field without an entry has something standing in for it. */
  lemma {:induction false} GapsAreGiven(s: Schema, t: Target, path: string, j: nat, got: map<string, Decoded>)
    requires IsTable(s) && (t.At? ==> t.node.value.Table?) && !Silent(t)
    requires j <= |FieldsOf(s)| && Silently(WalkGaps(s, t, path, j, got))
    ensures WalkGaps(s, t, path, j, got).end.value == got
    ensures forall k | j <= k < |FieldsOf(s)| :: FieldsOf(s)[k].name in got || GivenFor(FieldsOf(s)[k]).Value?
    decreases |FieldsOf(s)| - j
  {
    hide WalkSupplied, Reports, Founds;
    if j < |FieldsOf(s)| {
      var f := FieldsOf(s)[j];
      if f.name in got || GivenFor(f).Value? {
        GapsAreGiven(s, t, path, j + 1, got);
      } else {
        GapGoesOn(s, t, path, j, got);
        var tr := WalkSupplied(f, t, path);
        SilentlyBefore(tr.events, WalkGaps(s, t, path, j + 1, got[f.name := tr.end.value]));
        SuppliedSpoken(f, t, path);
        assert false;
      }
    }
  }

  lemma GapGoesOn(s: Schema, t: Target, path: string, j: nat, got: map<string, Decoded>)
    requires IsTable(s) && j < |FieldsOf(s)| && WalkGaps(s, t, path, j, got).end.Done?
    requires FieldsOf(s)[j].name !in got && !GivenFor(FieldsOf(s)[j]).Value?
    ensures var f := FieldsOf(s)[j];
            var tr := WalkSupplied(f, t, path);
            && tr.end.Done?
            && WalkGaps(s, t, path, j, got) ==
              Before(tr.events, WalkGaps(s, t, path, j + 1, got[f.name := tr.end.value]))
  {
    hide WalkSupplied, Founds;
  }

  lemma {:induction false} TableIsTrue(s: Schema, node: Node, path: string)
    requires IsTable(s) && UniqueTable(s, At(node)) && (s.SAny? ==> node.value.Table?)
    requires Silently(WalkTable(s, At(node), path, {}))
    ensures node.value.Table? && TableRepresents(s, WalkTable(s, At(node), path, {}).end.value, node)
    decreases s, node, 4, 0
  {
    hide WalkEntries, WalkGaps, UniqueTable, Represents, TableRepresents, Founds, Reports, AllFound, HeldSoFar;
    var entries := TableParts(s, node, path);
    if !node.value.Table? {
      AllFoundParts(NotATable(At(node), path));
      assert false;
    } else {
      assert HeldSoFar(s, node, 0, map[]) by { NothingHeld(s, node); }
      EntriesAreTrue(s, node, path, 0, map[]);
      GapsAreGiven(s, At(node), path, 0, entries.end.value);
      assert UniqueNames(FieldsOf(s)) by { NamesAreUnique(s, node); }
      TableIsBuilt(s, node, entries.end.value);
    }
  }

  lemma NothingHeld(s: Schema, node: Node)
    requires IsTable(s) && node.value.Table?
    ensures HeldSoFar(s, node, 0, map[])
  {
    hide Represents;
  }

  lemma TableParts(s: Schema, node: Node, path: string) returns (entries: Trace<map<string, Decoded>>)
    requires IsTable(s) && Silently(WalkTable(s, At(node), path, {}))
    ensures entries == WalkEntries(s, At(node), path, {}, 0, map[]) && Silently(entries)
    ensures Reports(AllFound(NotATable(At(node), path))) == []
    ensures Silently(WalkGaps(s, At(node), path, 0, entries.end.value))
    ensures WalkTable(s, At(node), path, {}).end.value ==
            DTable(Completed(FieldsOf(s), WalkGaps(s, At(node), path, 0, entries.end.value).end.value))
  {
    hide WalkEntries, WalkGaps, Founds, Reports, AllFound;
    entries := WalkEntries(s, At(node), path, {}, 0, map[]);
    var first := AllFound(NotATable(At(node), path));
    var rest := WalkRest(s, At(node), path, entries);
    SilentlyBefore(first, rest);
    SilentlyBefore(entries.events, WalkGaps(s, At(node), path, 0, entries.end.value));
  }

  lemma TableIsBuilt(s: Schema, node: Node, got: map<string, Decoded>)
    requires IsTable(s) && node.value.Table? && HeldSoFar(s, node, |node.value.entries|, got) &&
             UniqueNames(FieldsOf(s))
    requires forall k | 0 <= k < |FieldsOf(s)| :: FieldsOf(s)[k].name in got || GivenFor(FieldsOf(s)[k]).Value?
    ensures TableRepresents(s, DTable(Completed(FieldsOf(s), got)), node)
  {
    hide Represents, UniqueRead, Completed, HeldSoFar, StandsIn, Unsupplied;
    var fields, entries, whole := FieldsOf(s), node.value.entries, Completed(FieldsOf(s), got);
    KeysAreBuilt(s, node, got);
    forall i | 0 <= i < |entries| && Reads(s, entries[i].key)
      ensures var key := entries[i].key; key in whole && Represents(Schemas.Under(s, key), whole[key], entries[i].node)
    {
      CompletedKeeps(fields, got, entries[i].key);
      HeldAt(s, node, i, got);
    }
    forall j | 0 <= j < |fields|
      ensures forall i | 0 <= i < |entries| && entries[i].key == fields[j].name ::
                Represents(fields[j].schema, whole[fields[j].name], entries[i].node)
      ensures Unsupplied(entries, fields[j].name) ==> StandsIn(fields[j], whole[fields[j].name])
    {
      FoundByName(fields, j);
      if Unsupplied(entries, fields[j].name) {
        NotHeld(s, node, got, fields[j].name);
        CompletedGives(fields, got, j);
        StandsInIs(fields[j], whole[fields[j].name]);
      }
    }
  }

  lemma KeysAreBuilt(s: Schema, node: Node, got: map<string, Decoded>)
    requires IsTable(s) && node.value.Table? && HeldSoFar(s, node, |node.value.entries|, got)
    ensures Completed(FieldsOf(s), got).Keys == if s.SStruct? then NamesOf(s.fields) else KeysOf(node.value.entries)
  {
    hide Represents;
    var whole := Completed(FieldsOf(s), got);
    assert whole.Keys == NamesOf(FieldsOf(s)) + got.Keys;
    forall key | key in got
      ensures if s.SStruct? then key in NamesOf(s.fields) else key in KeysOf(node.value.entries)
    {
      assert s.SStruct? ==> s.fields[FindField(s.fields, key)].name == key;
    }
    forall i | 0 <= i < |node.value.entries| && !s.SStruct?
      ensures node.value.entries[i].key in got
    {
      assert Reads(s, node.value.entries[i].key);
    }
  }

  lemma HeldAt(s: Schema, node: Node, i: nat, got: map<string, Decoded>)
    requires IsTable(s) && node.value.Table? && HeldSoFar(s, node, |node.value.entries|, got)
    requires i < |node.value.entries| && Reads(s, node.value.entries[i].key)
    ensures var key := node.value.entries[i].key;
            key in got && Represents(Schemas.Under(s, key), got[key], node.value.entries[i].node)
  {
    hide Represents;
  }

  lemma NotHeld(s: Schema, node: Node, got: map<string, Decoded>, key: string)
    requires IsTable(s) && node.value.Table? && HeldSoFar(s, node, |node.value.entries|, got) &&
             Unsupplied(node.value.entries, key)
    ensures key !in got
  {
    hide Represents;
  }

  lemma CompletedKeeps(fields: seq<Field>, got: map<string, Decoded>, key: string)
    ensures key in got ==> key in Completed(fields, got) && Completed(fields, got)[key] == got[key]
  {
  }

  lemma CompletedGives(fields: seq<Field>, got: map<string, Decoded>, j: nat)
    requires j < |fields| && UniqueNames(fields) && fields[j].name !in got && GivenFor(fields[j]).Value?
    ensures fields[j].name in Completed(fields, got) &&
            Completed(fields, got)[fields[j].name] == GivenFor(fields[j]).value
  {
    FoundByName(fields, j);
  }

  lemma NamesAreUnique(s: Schema, node: Node)
    requires IsTable(s) && UniqueTable(s, At(node))
    ensures UniqueNames(FieldsOf(s))
  {
    hide UniqueRead;
  }

  lemma FoundByName(fields: seq<Field>, j: nat)
    requires UniqueNames(fields) && j < |fields|
    ensures FindField(fields, fields[j].name) == j
  {
  }

  // ---- Where there is nothing to read ----

  /** A read of an absent section tells of nothing and yields `v` exactly when `v` is what the type makes of nothing. */
  lemma {:induction false} VacantIsRead(s: Schema, t: Target, path: string, v: Decoded)
    requires t.Absent? && !t.reported && UniqueRead(s, t)
    ensures Vacant(s, v) <==> Silently(Walk(s, t, path, {})) && Walk(s, t, path, {}).end.value == v
  {
    hide WalkSeq, WalkTable, ReadScalar, Mismatch;
    match s
    case SOption(_) =>
    case SMapped(inner, takes) =>
      VacantIsRead(inner, t, path, v);
    case SMap(_) => VacantTable(s, t, path, v);
    case SStruct(_) => VacantTable(s, t, path, v);
    case SSeq(_) =>
      AbsentSpeaks(t, path, "an array");
      assert Walk(s, t, path, {}) ==
        Trace(AllFound(Mismatch(t, path, "an array")), Done(DSeq([]))) by { AbsentSeq(s, t, path); }
    case SAny => AbsentSpeaks(t, path, "a value");
    case _ =>
      AbsentSpeaks(t, path, WhatOf(s));
      AbsentScalar(s, t, path);
  }

  lemma AbsentSpeaks(t: Target, path: string, what: string)
    requires t.Absent? && !t.reported
    ensures Reports(AllFound(Mismatch(t, path, what))) != []
  {
    AllFoundParts(Mismatch(t, path, what));
  }

  lemma AbsentSeq(s: Schema, t: Target, path: string)
    requires s.SSeq? && t.Absent?
    ensures Walk(s, t, path, {}) == Trace(AllFound(Mismatch(t, path, "an array")), Done(DSeq([])))
  {
    hide Mismatch;
  }

  lemma AbsentScalar(s: Schema, t: Target, path: string)
    requires IsScalarSchema(s) && t.Absent?
    ensures ReadScalar(s, t, path).problems == Mismatch(t, path, WhatOf(s))
  {
    hide Mismatch;
  }

  lemma VacantTable(s: Schema, t: Target, path: string, v: Decoded)
    requires (s.SMap? || s.SStruct?) && t.Absent? && !t.reported && UniqueTable(s, t)
    ensures Vacant(s, v) <==> Silently(WalkTable(s, t, path, {})) && WalkTable(s, t, path, {}).end.value == v
  {
    hide WalkGaps, WalkTable, Reports, UniqueRead, Completed, Vacant;
    AbsentTable(s, t, path);
    VacantIs(s, v);
    if Silently(WalkTable(s, t, path, {})) {
      GapsAreGiven(s, t, path, 0, map[]);
    }
    if forall k | 0 <= k < |FieldsOf(s)| :: GivenFor(FieldsOf(s)[k]).Value? {
      NothingToSupply(s, t, path, 0);
      NoEvents();
      StandIns(FieldsOf(s));
    }
  }

  /** Every field has what the derive gives it. */
  predicate AllGiven(fields: seq<Field>, v: Decoded) {
    && v.DTable? && v.entries.Keys == NamesOf(fields)
    && forall i | 0 <= i < |fields| :: GivenFor(fields[i]) == Given.Value(v.entries[fields[i].name])
  }

  lemma VacantIs(s: Schema, v: Decoded)
    requires s.SMap? || s.SStruct?
    ensures Vacant(s, v) <==> AllGiven(FieldsOf(s), v)
  {
    hide StandsIn;
    if s.SMap? {
      assert v.DTable? ==> (v.entries.Keys == {} <==> v.entries == map[]);
    } else if v.DTable? && v.entries.Keys == NamesOf(s.fields) {
      forall i | 0 <= i < |s.fields|
        ensures StandsIn(s.fields[i], v.entries[s.fields[i].name]) <==>
                GivenFor(s.fields[i]) == Given.Value(v.entries[s.fields[i].name])
      {
        StandsInIs(s.fields[i], v.entries[s.fields[i].name]);
      }
    }
  }

  /** The walk of an absent table is the walk of its missing fields. */
  lemma AbsentTable(s: Schema, t: Target, path: string)
    requires (s.SMap? || s.SStruct?) && t.Absent? && !t.reported
    ensures var gaps, tr := WalkGaps(s, t, path, 0, map[]), WalkTable(s, t, path, {});
            && (Silently(tr) <==> Silently(gaps))
            && (gaps.end.Done? ==> tr.end == Done(DTable(Completed(FieldsOf(s), gaps.end.value))))
  {
    hide WalkGaps, Reports, Completed, Founds;
    var gaps := WalkGaps(s, t, path, 0, map[]);
    assert AllFound(NotATable(t, path)) == [];
    BeforeNothing(gaps);
  }

  lemma {:induction false} NothingToSupply(s: Schema, t: Target, path: string, j: nat)
    requires IsTable(s) && j <= |FieldsOf(s)| && forall k | 0 <= k < |FieldsOf(s)| :: GivenFor(FieldsOf(s)[k]).Value?
    ensures WalkGaps(s, t, path, j, map[]) == Trace([], Done(map[]))
    decreases |FieldsOf(s)| - j
  {
    if j < |FieldsOf(s)| {
      NothingToSupply(s, t, path, j + 1);
    }
  }

  /** With no entry, a struct is built of what stands in for its fields, and of nothing else. */
  lemma StandIns(fields: seq<Field>)
    requires UniqueNames(fields) && forall k | 0 <= k < |fields| :: GivenFor(fields[k]).Value?
    ensures var built := Completed(fields, map[]);
            && built.Keys == NamesOf(fields)
            && forall i | 0 <= i < |fields| :: built[fields[i].name] == GivenFor(fields[i]).value
  {
    forall i | 0 <= i < |fields|
      ensures Completed(fields, map[])[fields[i].name] == GivenFor(fields[i]).value
    {
      FoundByName(fields, i);
    }
  }

  // ---- Of a whole section ----

  /** A section that reports nothing is given the value its node holds. */
  lemma WholeIsTrue(s: Schema, node: Node, path: string)
    requires UniqueRead(s, At(node)) && WholeReport(s, At(node), path) == []
    ensures Whole(s, At(node), path).end.Done? && Represents(s, Whole(s, At(node), path).end.value, node)
  {
    hide Walk, Whole, UniqueRead, Represents, Reports, HeldEvents, Asides, Refusals, StopsInSection, Fills, AllRefuse;
    var t := At(node);
    SilenceIsSuccess(s, t, path);
    NoneRefuse(Core(s), t, path);
    NothingAside(Core(s), t, path, 0);
    if StopsInSection(s, t, path, {}) {
      RefusedIsTold(s, t, path);
      assert false;
    }
    Complete(s, t, path, {});
    QuietMultiset(Reports(Walk(s, t, path, {}).events), Reports(HeldEvents(Core(s), t, path, {}, 0)));
    ReadIsTrue(s, node, path);
  }

  /** ... and one with nothing to read the value its type makes of nothing. */
  lemma WholeIsVacant(s: Schema, t: Target, path: string)
    requires t.Absent? && !t.reported && UniqueRead(s, t) && WholeReport(s, t, path) == []
    ensures Whole(s, t, path).end.Done? && Vacant(s, Whole(s, t, path).end.value)
  {
    hide Walk, Whole, UniqueRead, Vacant, Reports;
    SilenceIsSuccess(s, t, path);
    SkipIrrelevant(s, t, path, {});
    VacantIsRead(s, t, path, Whole(s, t, path).end.value);
  }

  /** A walk that stops in a section tells of it. */
  lemma RefusedIsTold(s: Schema, t: Target, path: string)
    requires UniqueRead(s, t) && StopsInSection(s, t, path, {})
    ensures WholeReport(s, t, path) != []
  {
    hide Walk, Whole, UniqueRead, Reports, SectionTrace, Asides, HeldEvents;
    var sp := Advance(s, t, path, {});
    SectionInWhole(s, t, path, sp.at);
    SectionSpoken(Core(s), t, path, sp.at);
    QuietMultiset([], SectionReports(s, t, path, sp.at));
  }

  lemma QuietMultiset(a: seq<Problem>, b: seq<Problem>)
    ensures multiset(a) + multiset(b) == multiset([]) <==> a == [] && b == []
    ensures multiset(b) <= multiset([]) <==> b == []
  {
    if a != [] {
      assert a[0] in multiset(a) + multiset(b);
    }
    if b != [] {
      assert b[0] in multiset(b) && b[0] in multiset(a) + multiset(b);
    }
  }
}
