/** The tables a read visits, and reads none of whose tables print one path. */
module CleanReads {
  import opened Trees
  import opened Schemas
  import opened Reader
  import opened Walks
  import opened Events

  // ---- Unique keys ----

  /** Every table the read of `t` as `s` follows has unique keys, and every struct unique names. */
  predicate UniqueRead(s: Schema, t: Target)
    decreases s, Held(t), 1
  {
    match s
    case SOption(inner) => t.At? ==> UniqueRead(inner, t)
    case SMapped(inner, _) => UniqueRead(inner, t)
    case SSeq(_) => UniqueItems(s, t)
    case SAny => UniqueItems(s, t) && UniqueTable(s, t)
    case SMap(_) => UniqueTable(s, t)
    case SStruct(_) => UniqueTable(s, t)
    case _ => true
  }

  function ItemsOf(t: Target): seq<Node> {
    if t.At? && t.node.value.Array? then t.node.value.items else []
  }

  predicate UniqueItems(s: Schema, t: Target)
    requires s.SSeq? || s.SAny?
    decreases s, Held(t), 0
  {
    forall i | 0 <= i < |ItemsOf(t)| :: UniqueRead(ElementOf(s), At(ItemsOf(t)[i]))
  }

  predicate UniqueNames(fields: seq<Field>) {
    forall i, j | 0 <= i < j < |fields| :: fields[i].name != fields[j].name
  }

  predicate UniqueTable(s: Schema, t: Target)
    requires IsTable(s)
    decreases s, Held(t), 0
  {
    && UniqueKeys(EntriesOf(t))
    && UniqueNames(FieldsOf(s))
    && (forall i | 0 <= i < |EntriesOf(t)| && Reads(s, EntriesOf(t)[i].key) ::
          UniqueRead(Under(s, EntriesOf(t)[i].key), At(EntriesOf(t)[i].node)))
    && (forall j | 0 <= j < |FieldsOf(s)| :: UniqueRead(FieldsOf(s)[j].schema, Absent(true, OriginOf(t))))
  }

  /** No entry from place `i` on stands under `key`. */
  predicate NotFrom(entries: seq<Entry>, i: nat, key: string) {
    forall j | i <= j < |entries| :: entries[j].key != key
  }

  lemma UniqueEntry(s: Schema, t: Target, i: nat)
    requires IsTable(s) && UniqueTable(s, t) && i < |EntriesOf(t)| && Reads(s, EntriesOf(t)[i].key)
    ensures UniqueRead(Under(s, EntriesOf(t)[i].key), At(EntriesOf(t)[i].node))
    ensures NotFrom(EntriesOf(t), i + 1, EntriesOf(t)[i].key)
  {
    hide UniqueRead;
  }

  lemma UniqueField(s: Schema, t: Target, j: nat)
    requires IsTable(s) && UniqueTable(s, t) && j < |FieldsOf(s)|
    ensures UniqueRead(FieldsOf(s)[j].schema, Absent(true, OriginOf(t)))
    ensures FindField(FieldsOf(s), FieldsOf(s)[j].name) == j
  {
    hide UniqueRead;
  }

  // ---- The tables a read visits ----

  /** A field nothing supplies and nothing stands in for. */
  predicate Lacks(f: Field, t: Target) {
    !HasKey(EntriesOf(t), f.name) && GivenFor(f).Required?
  }

  /** The paths of the tables the read visits, those of missing fields included; `skip` as for a walk. */
  function Places(s: Schema, t: Target, path: string, skip: set<string>): seq<string>
    decreases s, Held(t), 5, 0
  {
    match s
    case SOption(inner) => if t.Absent? || t.node.value.Null? then [] else Places(inner, t, path, skip)
    case SMapped(inner, _) => Places(inner, t, path, skip)
    case SSeq(_) => ItemPlaces(s, t, path, 0)
    case SAny => if t.At? && t.node.value.Table? then TablePlaces(s, t, path, skip) else ItemPlaces(s, t, path, 0)
    case SMap(_) => TablePlaces(s, t, path, skip)
    case SStruct(_) => TablePlaces(s, t, path, skip)
    case _ => []
  }

  function ItemPlaces(s: Schema, t: Target, path: string, i: nat): seq<string>
    requires (s.SSeq? || s.SAny?) && i <= |ItemsOf(t)|
    decreases s, Held(t), 0, |ItemsOf(t)| - i
  {
    if i == |ItemsOf(t)| then []
    else Places(ElementOf(s), At(ItemsOf(t)[i]), JoinIndex(path, i), {}) + ItemPlaces(s, t, path, i + 1)
  }

  function TablePlaces(s: Schema, t: Target, path: string, skip: set<string>): seq<string>
    requires IsTable(s)
    decreases s, Held(t), 4, 0
  {
    [path] + (EntryPlaces(s, t, path, skip, 0) + FieldPlaces(s, t, path, 0))
  }

  /** Those of the entry at `i`. */
  function EntryPlace(s: Schema, t: Target, path: string, skip: set<string>, i: nat): seq<string>
    requires IsTable(s) && i < |EntriesOf(t)|
    decreases s, Held(t), 2, 0
  {
    var key := EntriesOf(t)[i].key;
    if JoinKey(path, key) in skip || !Reads(s, key) then []
    else Places(Under(s, key), At(EntriesOf(t)[i].node), JoinKey(path, key), {})
  }

  /** Those of the entries at `i` and after. */
  function EntryPlaces(s: Schema, t: Target, path: string, skip: set<string>, i: nat): seq<string>
    requires IsTable(s) && i <= |EntriesOf(t)|
    decreases s, Held(t), 3, |EntriesOf(t)| - i
  {
    if i == |EntriesOf(t)| then [] else EntryPlace(s, t, path, skip, i) + EntryPlaces(s, t, path, skip, i + 1)
  }

  /** Those of the field at `j`, when it is missing. */
  function FieldPlace(s: Schema, t: Target, path: string, j: nat): seq<string>
    requires IsTable(s) && j < |FieldsOf(s)|
    decreases s, Held(t), 2, 0
  {
    var f := FieldsOf(s)[j];
    if Lacks(f, t) then Places(f.schema, Absent(true, OriginOf(t)), JoinKey(path, f.name), {}) else []
  }

  /** Those of the missing fields at `j` and after. */
  function FieldPlaces(s: Schema, t: Target, path: string, j: nat): seq<string>
    requires IsTable(s) && j <= |FieldsOf(s)|
    decreases s, Held(t), 3, |FieldsOf(s)| - j
  {
    if j == |FieldsOf(s)| then [] else FieldPlace(s, t, path, j) + FieldPlaces(s, t, path, j + 1)
  }

  /** No path twice. */
  predicate Apart(places: seq<string>) {
    forall i, j | 0 <= i < j < |places| :: places[i] != places[j]
  }

  predicate Disjoint(a: seq<string>, b: seq<string>) {
    forall q | q in a :: q !in b
  }

  lemma ApartParts(a: seq<string>, b: seq<string>)
    ensures Apart(a + b) <==> Apart(a) && Apart(b) && Disjoint(a, b)
  {
    if Apart(a + b) {
      PartsApart(a, b);
    }
    if Apart(a) && Apart(b) && Disjoint(a, b) {
      TogetherApart(a, b);
    }
  }

  lemma PartsApart(a: seq<string>, b: seq<string>)
    requires Apart(a + b)
    ensures Apart(a) && Apart(b) && Disjoint(a, b)
  {
    var ab := a + b;
    assert forall i | 0 <= i < |a| :: ab[i] == a[i];
    assert forall j | 0 <= j < |b| :: ab[|a| + j] == b[j];
    forall i, j | 0 <= i < |a| && 0 <= j < |b|
      ensures a[i] != b[j]
    {
      assert ab[i] != ab[|a| + j];
    }
    forall i, j | 0 <= i < j < |b|
      ensures b[i] != b[j]
    {
      assert ab[|a| + i] != ab[|a| + j];
    }
  }

  lemma TogetherApart(a: seq<string>, b: seq<string>)
    requires Apart(a) && Apart(b) && Disjoint(a, b)
    ensures Apart(a + b)
  {
    forall i, j | 0 <= i < j < |a + b|
      ensures (a + b)[i] != (a + b)[j]
    {
      if i < |a| <= j {
        assert a[i] in a && b[j - |a|] in b;
      }
    }
  }

  /** Keys are unique, and no two tables the read visits print one path. */
  predicate CleanRead(s: Schema, t: Target, path: string) {
    UniqueRead(s, t) && Apart(Places(s, t, path, {}))
  }

  // ---- Leaving sections out leaves their tables out ----

  lemma {:induction false} SkippedEntries(s: Schema, t: Target, path: string, skip: set<string>, more: set<string>,
      i: nat)
    requires IsTable(s) && i <= |EntriesOf(t)| && skip <= more
    ensures forall q | q in EntryPlaces(s, t, path, more, i) :: q in EntryPlaces(s, t, path, skip, i)
    ensures Apart(EntryPlaces(s, t, path, skip, i)) ==> Apart(EntryPlaces(s, t, path, more, i))
    decreases |EntriesOf(t)| - i
  {
    hide EntryPlace, Apart;
    if i < |EntriesOf(t)| {
      SkippedEntries(s, t, path, skip, more, i + 1);
      SkippedEntry(s, t, path, skip, more, i);
      ApartParts(EntryPlace(s, t, path, skip, i), EntryPlaces(s, t, path, skip, i + 1));
      ApartParts(EntryPlace(s, t, path, more, i), EntryPlaces(s, t, path, more, i + 1));
    }
  }

  lemma SkippedEntry(s: Schema, t: Target, path: string, skip: set<string>, more: set<string>, i: nat)
    requires IsTable(s) && i < |EntriesOf(t)| && skip <= more
    ensures forall q | q in EntryPlace(s, t, path, more, i) :: q in EntryPlace(s, t, path, skip, i)
    ensures Apart(EntryPlace(s, t, path, skip, i)) ==> Apart(EntryPlace(s, t, path, more, i))
  {
    hide Places;
  }

  lemma SkippedTable(s: Schema, t: Target, path: string, skip: set<string>)
    requires IsTable(s) && Apart(TablePlaces(s, t, path, {}))
    ensures Apart(TablePlaces(s, t, path, skip))
  {
    hide EntryPlaces, FieldPlaces, Apart;
    var all, some, fields :=
      EntryPlaces(s, t, path, {}, 0), EntryPlaces(s, t, path, skip, 0), FieldPlaces(s, t, path, 0);
    SkippedEntries(s, t, path, {}, skip, 0);
    ApartParts([path], all + fields);
    ApartParts(all, fields);
    ApartParts(some, fields);
    ApartParts([path], some + fields);
  }

  lemma {:induction false} SkippedRead(s: Schema, t: Target, path: string, skip: set<string>)
    requires Apart(Places(s, t, path, {}))
    ensures Apart(Places(s, t, path, skip))
  {
    hide TablePlaces, ItemPlaces, Apart;
    if s.SOption? {
      if t.At? && !t.node.value.Null? {
        SkippedRead(s.inner, t, path, skip);
      }
    } else if s.SMapped? {
      SkippedRead(s.inner, t, path, skip);
    } else if s.SMap? || s.SStruct? || (s.SAny? && t.At? && t.node.value.Table?) {
      SkippedTable(s, t, path, skip);
    }
  }

  /** The tables of an entry set aside are none of those left. */
  lemma {:induction false} OtherEntries(s: Schema, t: Target, path: string, more: set<string>, at: nat, i: nat)
    requires IsTable(s) && i <= at < |EntriesOf(t)| && JoinKey(path, EntriesOf(t)[at].key) in more
    requires Apart(EntryPlaces(s, t, path, {}, i))
    ensures Disjoint(EntryPlace(s, t, path, {}, at), EntryPlaces(s, t, path, more, i))
    ensures forall q | q in EntryPlace(s, t, path, {}, at) :: q in EntryPlaces(s, t, path, {}, i)
    decreases at - i
  {
    hide EntryPlace, Apart;
    ApartParts(EntryPlace(s, t, path, {}, i), EntryPlaces(s, t, path, {}, i + 1));
    SkippedEntry(s, t, path, {}, more, i);
    if i == at {
      assert EntryPlace(s, t, path, more, at) == [] by { SkippedNone(s, t, path, more, at); }
      SkippedEntries(s, t, path, {}, more, i + 1);
    } else {
      OtherEntries(s, t, path, more, at, i + 1);
    }
  }

  lemma SkippedNone(s: Schema, t: Target, path: string, more: set<string>, at: nat)
    requires IsTable(s) && at < |EntriesOf(t)| && JoinKey(path, EntriesOf(t)[at].key) in more
    ensures EntryPlace(s, t, path, more, at) == []
  {
  }

  lemma OtherTables(s: Schema, t: Target, path: string, skip: set<string>, more: set<string>, at: nat)
    requires IsTable(s) && at < |EntriesOf(t)| && JoinKey(path, EntriesOf(t)[at].key) in more && skip <= more
    requires Apart(TablePlaces(s, t, path, {}))
    ensures forall q | q in TablePlaces(s, t, path, more) ::
              q in TablePlaces(s, t, path, skip) && q !in EntryPlace(s, t, path, {}, at)
  {
    hide EntryPlaces, FieldPlaces, EntryPlace, Apart;
    var all, fields := EntryPlaces(s, t, path, {}, 0), FieldPlaces(s, t, path, 0);
    ApartParts([path], all + fields);
    ApartParts(all, fields);
    assert path in [path];
    OtherEntries(s, t, path, more, at, 0);
    SkippedEntries(s, t, path, skip, more, 0);
  }

  /** A path that is none of the entries' leaves none out. */
  lemma {:induction false} NoneSkipped(s: Schema, t: Target, path: string, skip: set<string>, more: set<string>, i: nat)
    requires IsTable(s) && i <= |EntriesOf(t)|
    requires forall j | 0 <= j < |EntriesOf(t)| :: JoinKey(path, EntriesOf(t)[j].key) in more <==>
             JoinKey(path, EntriesOf(t)[j].key) in skip
    ensures EntryPlaces(s, t, path, more, i) == EntryPlaces(s, t, path, skip, i)
    decreases |EntriesOf(t)| - i
  {
    hide Places;
    if i < |EntriesOf(t)| {
      NoneSkipped(s, t, path, skip, more, i + 1);
    }
  }

  lemma OwnPlace(s: Schema, t: Target, path: string, skip: set<string>)
    requires IsTable(s)
    ensures path in TablePlaces(s, t, path, skip)
  {
    assert TablePlaces(s, t, path, skip)[0] == path;
  }

  /** A read that visits no table at its own path pays no heed to `skip`. */
  lemma {:induction false} SkipFree(s: Schema, t: Target, path: string, skip: set<string>)
    requires path !in Places(s, t, path, {})
    ensures Walk(s, t, path, skip) == Walk(s, t, path, {}) && Places(s, t, path, skip) == Places(s, t, path, {})
  {
    if s.SOption? {
      if t.At? && !t.node.value.Null? {
        SkipFree(s.inner, t, path, skip);
      }
    } else if s.SMapped? {
      SkipFree(s.inner, t, path, skip);
    } else if s.SMap? || s.SStruct? || (s.SAny? && t.At? && t.node.value.Table?) {
      OwnPlace(s, t, path, {});
    }
  }

  /** ... and its stop names no section of a table. */
  lemma {:induction false} NoSection(s: Schema, t: Target, path: string, skip: set<string>)
    requires path !in Places(s, t, path, skip)
    ensures var end := Walk(s, t, path, skip).end; end.Stop? ==> end.section.None?
  {
    if s.SOption? {
      if t.At? && !t.node.value.Null? {
        NoSection(s.inner, t, path, skip);
      }
    } else if s.SMapped? {
      NoSection(s.inner, t, path, skip);
    } else if s.SMap? || s.SStruct? || (s.SAny? && t.At? && t.node.value.Table?) {
      OwnPlace(s, t, path, skip);
    } else if t.At? && t.node.value.Array? && (s.SSeq? || s.SAny?) {
      ItemsNoSection(s, t, path, 0, []);
    }
  }

  lemma {:induction false} ItemsNoSection(s: Schema, t: Target, path: string, i: nat, got: seq<Decoded>)
    requires (s.SSeq? || s.SAny?) && t.At? && t.node.value.Array? && i <= |t.node.value.items|
    ensures var end := WalkItems(s, t, path, i, got).end; end.Stop? ==> end.section.None?
    decreases |t.node.value.items| - i
  {
    hide Walk;
    if i < |t.node.value.items| {
      var tr := Walk(ElementOf(s), At(t.node.value.items[i]), JoinIndex(path, i), {});
      if tr.end.Done? {
        ItemsNoSection(s, t, path, i + 1, got + [tr.end.value]);
      }
    }
  }

  /** A path only grows on the way down. */
  lemma {:induction false} PlacesLong(s: Schema, t: Target, path: string, skip: set<string>)
    ensures forall q | q in Places(s, t, path, skip) :: |q| >= |path|
    decreases s, Held(t), 5, 0
  {
    match s
    case SOption(inner) =>
      if t.At? && !t.node.value.Null? {
        PlacesLong(inner, t, path, skip);
      }
    case SMapped(inner, _) => PlacesLong(inner, t, path, skip);
    case SSeq(_) => ItemsLong(s, t, path, 0);
    case SAny =>
      if t.At? && t.node.value.Table? {
        TableLong(s, t, path, skip);
      } else {
        ItemsLong(s, t, path, 0);
      }
    case SMap(_) => TableLong(s, t, path, skip);
    case SStruct(_) => TableLong(s, t, path, skip);
    case _ =>
  }

  lemma {:induction false} ItemsLong(s: Schema, t: Target, path: string, i: nat)
    requires (s.SSeq? || s.SAny?) && i <= |ItemsOf(t)|
    ensures forall q | q in ItemPlaces(s, t, path, i) :: |q| > |path|
    decreases s, Held(t), 0, |ItemsOf(t)| - i
  {
    hide Places;
    if i < |ItemsOf(t)| {
      PlacesLong(ElementOf(s), At(ItemsOf(t)[i]), JoinIndex(path, i), {});
      ItemsLong(s, t, path, i + 1);
    }
  }

  lemma {:induction false} TableLong(s: Schema, t: Target, path: string, skip: set<string>)
    requires IsTable(s)
    ensures forall q | q in TablePlaces(s, t, path, skip) :: |q| >= |path|
    decreases s, Held(t), 4, 0
  {
    EntriesLong(s, t, path, skip, 0);
    FieldsLong(s, t, path, 0);
  }

  lemma {:induction false} EntriesLong(s: Schema, t: Target, path: string, skip: set<string>, i: nat)
    requires IsTable(s) && i <= |EntriesOf(t)|
    ensures forall q | q in EntryPlaces(s, t, path, skip, i) :: |q| >= |path|
    decreases s, Held(t), 3, |EntriesOf(t)| - i
  {
    hide Places;
    if i < |EntriesOf(t)| {
      var key := EntriesOf(t)[i].key;
      if Reads(s, key) {
        PlacesLong(Under(s, key), At(EntriesOf(t)[i].node), JoinKey(path, key), {});
      }
      EntriesLong(s, t, path, skip, i + 1);
    }
  }

  lemma {:induction false} FieldsLong(s: Schema, t: Target, path: string, j: nat)
    requires IsTable(s) && j <= |FieldsOf(s)|
    ensures forall q | q in FieldPlaces(s, t, path, j) :: |q| >= |path|
    decreases s, Held(t), 3, |FieldsOf(s)| - j
  {
    hide Places;
    if j < |FieldsOf(s)| {
      PlacesLong(FieldsOf(s)[j].schema, Absent(true, OriginOf(t)), JoinKey(path, FieldsOf(s)[j].name), {});
      FieldsLong(s, t, path, j + 1);
    }
  }

  // ---- Fills and the ways traces are put together ----

  lemma ToldFills<T>(t: Target, path: string, tr: Trace<T>)
    ensures Fills(Told(t, path, tr).events) == Fills(tr.events)
  {
    if tr.end.Stop? {
      FillsAppend(tr.events, if tr.end.recorded || Silent(t) then [] else [Found(Problem(path, OriginOf(t), Refused))]);
    }
  }

  lemma BeforeFills<T>(events: seq<Event>, tr: Trace<T>)
    ensures Fills(Before(events, tr).events) == Fills(events) + Fills(tr.events)
  {
    FillsAppend(events, tr.events);
  }

  // ---- Every fill of a walk is at a table it visits ----

  lemma {:induction false} WalkFills(s: Schema, t: Target, path: string, skip: set<string>)
    ensures AllAt(Fills(Walk(s, t, path, skip).events), Places(s, t, path, skip))
    decreases s, Held(t), 5, 0
  {
    hide WalkSeq, WalkTable, ReadScalar, ItemPlaces, TablePlaces;
    match s
    case SOption(inner) =>
      if t.At? && !t.node.value.Null? {
        WalkFills(inner, t, path, skip);
        ToldFills(t, path, Walk(inner, t, path, skip));
      }
    case SMapped(inner, _) => WalkFills(inner, t, path, skip);
    case SSeq(_) => SeqFills(s, t, path);
    case SAny =>
      if t.Absent? {
        AllFoundParts(Mismatch(t, path, "a value"));
      } else if t.node.value.Array? {
        SeqFills(s, t, path);
      } else if t.node.value.Table? {
        TableFills(s, t, path, skip);
      }
    case SMap(_) => TableFills(s, t, path, skip);
    case SStruct(_) => TableFills(s, t, path, skip);
    case _ => AllFoundParts(ReadScalar(s, t, path).problems);
  }

  lemma {:induction false} SeqFills(s: Schema, t: Target, path: string)
    requires s.SSeq? || (s.SAny? && t.At? && t.node.value.Array?)
    ensures AllAt(Fills(WalkSeq(s, t, path).events), ItemPlaces(s, t, path, 0))
    decreases s, Held(t), 1, 0
  {
    if t.At? && t.node.value.Array? {
      ItemFills(s, t, path, 0, []);
      ToldFills(t, path, WalkItems(s, t, path, 0, []));
    } else {
      AllFoundParts(Mismatch(t, path, "an array"));
    }
  }

  lemma {:induction false} ItemFills(s: Schema, t: Target, path: string, i: nat, got: seq<Decoded>)
    requires (s.SSeq? || s.SAny?) && t.At? && t.node.value.Array? && i <= |t.node.value.items|
    ensures AllAt(Fills(WalkItems(s, t, path, i, got).events), ItemPlaces(s, t, path, i))
    decreases s, Held(t), 0, |t.node.value.items| - i
  {
    hide Walk, Places, Fills, Founds;
    NoEvents();
    if i < |t.node.value.items| {
      var item := At(t.node.value.items[i]);
      WalkFills(ElementOf(s), item, JoinIndex(path, i), {});
      var tr := Walk(ElementOf(s), item, JoinIndex(path, i), {});
      if tr.end.Done? {
        ItemFills(s, t, path, i + 1, got + [tr.end.value]);
        BeforeFills(tr.events, WalkItems(s, t, path, i + 1, got + [tr.end.value]));
      }
    }
  }

  lemma {:induction false} EntryFills(s: Schema, t: Target, path: string)
    ensures AllAt(Fills(WalkEntry(s, t, path).events), Places(s, t, path, {}))
    decreases s, Held(t), 6, 0
  {
    hide Walk, Places, Fills;
    WalkFills(s, t, path, {});
    ToldFills(t, path, Walk(s, t, path, {}));
  }

  lemma {:induction false} EntriesFills(s: Schema, t: Target, path: string, skip: set<string>, i: nat,
      got: map<string, Decoded>)
    requires IsTable(s) && i <= |EntriesOf(t)|
    ensures AllAt(Fills(WalkEntries(s, t, path, skip, i, got).events), EntryPlaces(s, t, path, skip, i))
    decreases s, Held(t), 3, |EntriesOf(t)| - i
  {
    hide WalkEntry, Places, Fills, Founds;
    NoEvents();
    if i < |EntriesOf(t)| {
      var key := EntriesOf(t)[i].key;
      if JoinKey(path, key) in skip || !Reads(s, key) {
        EntriesFills(s, t, path, skip, i + 1, got);
      } else if !Taken(s, key, got) {
        EntryFills(Under(s, key), At(EntriesOf(t)[i].node), JoinKey(path, key));
        var tr := WalkEntry(Under(s, key), At(EntriesOf(t)[i].node), JoinKey(path, key));
        if tr.end.Done? {
          EntriesFills(s, t, path, skip, i + 1, got[key := tr.end.value]);
          BeforeFills(tr.events, WalkEntries(s, t, path, skip, i + 1, got[key := tr.end.value]));
        }
      }
    }
  }

  lemma {:induction false} GapsFills(s: Schema, t: Target, path: string, j: nat, got: map<string, Decoded>)
    requires IsTable(s) && j <= |FieldsOf(s)|
    ensures AllAt(Fills(WalkGaps(s, t, path, j, got).events), [path] + FieldPlaces(s, t, path, j))
    decreases s, Held(t), 3, |FieldsOf(s)| - j
  {
    hide WalkSupplied, Places, Fills, Founds, HasKey;
    NoEvents();
    if j < |FieldsOf(s)| {
      var f := FieldsOf(s)[j];
      if f.name in got || GivenFor(f).Value? {
        GapsFills(s, t, path, j + 1, got);
      } else if GivenFor(f).Required? && !HasKey(EntriesOf(t), f.name) {
        SuppliedFills(f, t, path);
        var tr := WalkSupplied(f, t, path);
        if tr.end.Done? {
          GapsFills(s, t, path, j + 1, got[f.name := tr.end.value]);
          BeforeFills(tr.events, WalkGaps(s, t, path, j + 1, got[f.name := tr.end.value]));
        }
      }
    }
  }

  /** The fills of a supplied field: its own, at the table, then those of its placeholder. */
  lemma {:induction false} SuppliedFills(f: Field, t: Target, path: string)
    ensures var below := Absent(true, OriginOf(t));
            var child := Fills(WalkEntry(f.schema, below, JoinKey(path, f.name)).events);
            && Fills(WalkSupplied(f, t, path).events) ==
              [NewPatch(Patch(path, f.name), MissingProblem(t, path, f.name))] + child
            && AllAt(child, Places(f.schema, below, JoinKey(path, f.name), {}))
    ensures AllAt(Fills(WalkSupplied(f, t, path).events),
            [path] + Places(f.schema, Absent(true, OriginOf(t)), JoinKey(path, f.name), {}))
    decreases f.schema, Node(Null, Default), 7, 0
  {
    hide WalkEntry, Places, Fills, Founds;
    var below := Absent(true, OriginOf(t));
    EntryFills(f.schema, below, JoinKey(path, f.name));
    OwnFill(path, f.name, t);
    BeforeFills([Fill(NewPatch(Patch(path, f.name), MissingProblem(t, path, f.name)))],
      WalkEntry(f.schema, below, JoinKey(path, f.name)));
  }

  lemma OwnFill(path: string, name: string, t: Target)
    ensures var fill := [Fill(NewPatch(Patch(path, name), MissingProblem(t, path, name)))];
            Fills(fill) == [fill[0].supplied] && Founds(fill) == []
  {
    var fill := [Fill(NewPatch(Patch(path, name), MissingProblem(t, path, name)))];
    assert fill[1..] == [];
  }

  lemma {:induction false} TableFills(s: Schema, t: Target, path: string, skip: set<string>)
    requires IsTable(s)
    ensures AllAt(Fills(WalkTable(s, t, path, skip).events), TablePlaces(s, t, path, skip))
    decreases s, Held(t), 4, 0
  {
    hide WalkEntries, WalkGaps, EntryPlaces, FieldPlaces, Fills, Founds;
    var entries := WalkEntries(s, t, path, skip, 0, map[]);
    EntriesFills(s, t, path, skip, 0, map[]);
    if entries.end.Done? {
      GapsFills(s, t, path, 0, entries.end.value);
      BeforeFills(entries.events, WalkGaps(s, t, path, 0, entries.end.value));
    }
    var first, rest := AllFound(NotATable(t, path)), WalkRest(s, t, path, entries);
    AllFoundParts(NotATable(t, path));
    BeforeFills(first, rest);
    ToldFills(t, path, Before(first, rest));
  }
}
