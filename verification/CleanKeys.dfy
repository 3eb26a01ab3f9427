/** Reads all of whose keys a dotted path can name: no two of their tables print one path. */
module CleanKeys {
  import opened Trees
  import opened Schemas
  import opened Reader
  import opened PathOrder
  import opened CleanReads

  /** Every key the read of `t` as `s` follows is clean, and every table and struct it reads has unique keys. */
  predicate Nameable(s: Schema, t: Target)
    decreases s, Held(t), 1
  {
    match s
    case SOption(inner) => t.At? ==> Nameable(inner, t)
    case SMapped(inner, _) => Nameable(inner, t)
    case SSeq(_) => NameableItems(s, t)
    case SAny => NameableItems(s, t) && NameableTable(s, t)
    case SMap(_) => NameableTable(s, t)
    case SStruct(_) => NameableTable(s, t)
    case _ => true
  }

  predicate NameableItems(s: Schema, t: Target)
    requires s.SSeq? || s.SAny?
    decreases s, Held(t), 0
  {
    forall i | 0 <= i < |ItemsOf(t)| :: Nameable(ElementOf(s), At(ItemsOf(t)[i]))
  }

  predicate NameableTable(s: Schema, t: Target)
    requires IsTable(s)
    decreases s, Held(t), 0
  {
    && UniqueKeys(EntriesOf(t))
    && UniqueNames(FieldsOf(s))
    && (forall i | 0 <= i < |EntriesOf(t)| && Reads(s, EntriesOf(t)[i].key) ::
          CleanKey(EntriesOf(t)[i].key) && Nameable(Under(s, EntriesOf(t)[i].key), At(EntriesOf(t)[i].node)))
    && (forall j | 0 <= j < |FieldsOf(s)| ::
          CleanKey(FieldsOf(s)[j].name) && Nameable(FieldsOf(s)[j].schema, Absent(true, OriginOf(t))))
  }

  lemma NameableEntry(s: Schema, t: Target, i: nat)
    requires IsTable(s) && NameableTable(s, t) && i < |EntriesOf(t)| && Reads(s, EntriesOf(t)[i].key)
    ensures CleanKey(EntriesOf(t)[i].key) && Nameable(Under(s, EntriesOf(t)[i].key), At(EntriesOf(t)[i].node))
    ensures NotFrom(EntriesOf(t), i + 1, EntriesOf(t)[i].key)
  {
    hide Nameable;
  }

  lemma NameableField(s: Schema, t: Target, j: nat)
    requires IsTable(s) && NameableTable(s, t) && j < |FieldsOf(s)|
    ensures CleanKey(FieldsOf(s)[j].name) && Nameable(FieldsOf(s)[j].schema, Absent(true, OriginOf(t)))
    ensures FindField(FieldsOf(s), FieldsOf(s)[j].name) == j
    ensures forall i | 0 <= i < j :: FieldsOf(s)[i].name != FieldsOf(s)[j].name
  {
    hide Nameable;
  }

  // ---- Such a read is clean ----

  predicate AllBeneath(places: seq<string>, top: string) {
    forall q | q in places :: Beneath(top, q)
  }

  predicate AllBelow(places: seq<string>, top: string) {
    forall q | q in places :: Beneath(top, q) && |q| > |top|
  }

  predicate NoneBeneath(places: seq<string>, top: string) {
    forall q | q in places :: !Beneath(top, q)
  }

  lemma PartsApartBy(a: seq<string>, b: seq<string>, top: string)
    requires Apart(a) && Apart(b) && AllBeneath(a, top) && NoneBeneath(b, top)
    ensures Apart(a + b)
  {
    hide Beneath, Apart;
    ApartParts(a, b);
  }

  lemma BelowKey(places: seq<string>, path: string, key: string)
    requires CleanKey(key) && AllBeneath(places, JoinKey(path, key))
    ensures AllBelow(places, path)
    ensures forall k | CleanKey(k) && k != key :: NoneBeneath(places, JoinKey(path, k))
  {
    forall q | q in places
      ensures Beneath(path, q) && |q| > |path|
    {
      KeyBeneath(path, key, q);
    }
    forall k, q | CleanKey(k) && k != key && q in places
      ensures !Beneath(JoinKey(path, k), q)
    {
      if Beneath(JoinKey(path, k), q) {
        KeysApart(path, k, key, q);
      }
    }
  }

  lemma BelowIndex(places: seq<string>, path: string, index: nat)
    requires AllBeneath(places, JoinIndex(path, index))
    ensures AllBelow(places, path)
    ensures forall k: nat | k != index :: NoneBeneath(places, JoinIndex(path, k))
  {
    forall q | q in places
      ensures Beneath(path, q) && |q| > |path|
    {
      IndexBeneath(path, index, q);
    }
    forall k: nat, q | k != index && q in places
      ensures !Beneath(JoinIndex(path, k), q)
    {
      if Beneath(JoinIndex(path, k), q) {
        IndexesApart(path, k, index, q);
      }
    }
  }

  lemma BothBelow(a: seq<string>, b: seq<string>, path: string)
    requires AllBelow(a, path) && AllBelow(b, path)
    ensures AllBelow(a + b, path)
  {
    hide Beneath;
  }

  lemma NeitherBeneath(a: seq<string>, b: seq<string>, top: string)
    requires NoneBeneath(a, top) && NoneBeneath(b, top)
    ensures NoneBeneath(a + b, top)
  {
    hide Beneath;
  }

  /** Keys without `.` and `[` are enough for a read to be clean, wherever it starts. */
  lemma {:induction false} NameableIsClean(s: Schema, t: Target, path: string)
    requires Nameable(s, t)
    ensures CleanRead(s, t, path)
  {
    hide Nameable, UniqueRead, Places, Apart;
    NameableIsUnique(s, t);
    NamedPlaces(s, t, path);
  }

  lemma {:induction false} NameableIsUnique(s: Schema, t: Target)
    requires Nameable(s, t)
    ensures UniqueRead(s, t)
    decreases s, Held(t), 1
  {
    match s
    case SOption(inner) =>
      if t.At? {
        NameableIsUnique(inner, t);
      }
    case SMapped(inner, _) => NameableIsUnique(inner, t);
    case SSeq(_) => UniqueInItems(s, t);
    case SAny =>
      UniqueInItems(s, t);
      UniqueInTable(s, t);
    case SMap(_) => UniqueInTable(s, t);
    case SStruct(_) => UniqueInTable(s, t);
    case _ =>
  }

  lemma {:induction false} UniqueInItems(s: Schema, t: Target)
    requires (s.SSeq? || s.SAny?) && NameableItems(s, t)
    ensures UniqueItems(s, t)
    decreases s, Held(t), 0
  {
    forall i | 0 <= i < |ItemsOf(t)|
      ensures UniqueRead(ElementOf(s), At(ItemsOf(t)[i]))
    {
      NameableIsUnique(ElementOf(s), At(ItemsOf(t)[i]));
    }
  }

  lemma {:induction false} UniqueInTable(s: Schema, t: Target)
    requires IsTable(s) && NameableTable(s, t)
    ensures UniqueTable(s, t)
    decreases s, Held(t), 0
  {
    hide Nameable, UniqueRead;
    forall i | 0 <= i < |EntriesOf(t)| && Reads(s, EntriesOf(t)[i].key)
      ensures UniqueRead(Under(s, EntriesOf(t)[i].key), At(EntriesOf(t)[i].node))
    {
      NameableIsUnique(Under(s, EntriesOf(t)[i].key), At(EntriesOf(t)[i].node));
    }
    forall j | 0 <= j < |FieldsOf(s)|
      ensures UniqueRead(FieldsOf(s)[j].schema, Absent(true, OriginOf(t)))
    {
      NameableIsUnique(FieldsOf(s)[j].schema, Absent(true, OriginOf(t)));
    }
  }

  lemma {:induction false} NamedPlaces(s: Schema, t: Target, path: string)
    requires Nameable(s, t)
    ensures Apart(Places(s, t, path, {})) && AllBeneath(Places(s, t, path, {}), path)
    decreases s, Held(t), 5, 0
  {
    match s
    case SOption(inner) =>
      if t.At? && !t.node.value.Null? {
        NamedPlaces(inner, t, path);
      }
    case SMapped(inner, _) => NamedPlaces(inner, t, path);
    case SSeq(_) => NamedItems(s, t, path, 0);
    case SAny =>
      if t.At? && t.node.value.Table? {
        NamedTable(s, t, path);
      } else {
        NamedItems(s, t, path, 0);
      }
    case SMap(_) => NamedTable(s, t, path);
    case SStruct(_) => NamedTable(s, t, path);
    case _ =>
  }

  lemma {:induction false} NamedItems(s: Schema, t: Target, path: string, i: nat)
    requires (s.SSeq? || s.SAny?) && NameableItems(s, t) && i <= |ItemsOf(t)|
    ensures var places := ItemPlaces(s, t, path, i);
            && Apart(places) && AllBelow(places, path)
            && forall k: nat | k < i :: NoneBeneath(places, JoinIndex(path, k))
    decreases s, Held(t), 0, |ItemsOf(t)| - i
  {
    hide Nameable, Places, Beneath, Apart;
    if i < |ItemsOf(t)| {
      var here, there := Places(ElementOf(s), At(ItemsOf(t)[i]), JoinIndex(path, i), {}), ItemPlaces(s, t, path, i + 1);
      NamedPlaces(ElementOf(s), At(ItemsOf(t)[i]), JoinIndex(path, i));
      BelowIndex(here, path, i);
      NamedItems(s, t, path, i + 1);
      PartsApartBy(here, there, JoinIndex(path, i));
      forall k: nat | k < i
        ensures NoneBeneath(here + there, JoinIndex(path, k))
      {
        NeitherBeneath(here, there, JoinIndex(path, k));
      }
    } else {
      NothingApart();
    }
  }

  lemma NothingApart()
    ensures Apart([])
  {
  }

  /** The tables of entries from `i` on lie beneath no key but theirs. */
  ghost predicate EntriesNamed(t: Target, path: string, i: nat, places: seq<string>) {
    && Apart(places) && AllBelow(places, path)
    && forall k | CleanKey(k) && NotFrom(EntriesOf(t), i, k) :: NoneBeneath(places, JoinKey(path, k))
  }

  lemma {:induction false} NamedEntries(s: Schema, t: Target, path: string, i: nat)
    requires IsTable(s) && NameableTable(s, t) && i <= |EntriesOf(t)|
    ensures EntriesNamed(t, path, i, EntryPlaces(s, t, path, {}, i))
    decreases s, Held(t), 3, |EntriesOf(t)| - i
  {
    hide NameableTable, Nameable, Places, Apart, CleanKey, AllBeneath, EntriesNamed, NotFrom;
    if i == |EntriesOf(t)| {
      NoEntryNamed(t, path);
    } else {
      var key := EntriesOf(t)[i].key;
      var here, there := EntryPlace(s, t, path, {}, i), EntryPlaces(s, t, path, {}, i + 1);
      NamedEntries(s, t, path, i + 1);
      if Reads(s, key) {
        NameableEntry(s, t, i);
        NamedPlaces(Under(s, key), At(EntriesOf(t)[i].node), JoinKey(path, key));
        EntryBefore(t, path, i, here, there);
      } else {
        assert here + there == there;
        EntryPassed(t, path, i, there);
      }
    }
  }

  lemma NoEntryNamed(t: Target, path: string)
    ensures EntriesNamed(t, path, |EntriesOf(t)|, [])
  {
  }

  lemma EntryPassed(t: Target, path: string, i: nat, places: seq<string>)
    requires i < |EntriesOf(t)| && EntriesNamed(t, path, i + 1, places)
    ensures EntriesNamed(t, path, i, places)
  {
    hide Apart, AllBelow, CleanKey, NoneBeneath;
    assert forall k | NotFrom(EntriesOf(t), i, k) :: NotFrom(EntriesOf(t), i + 1, k);
  }

  lemma EntryBefore(t: Target, path: string, i: nat, here: seq<string>, there: seq<string>)
    requires i < |EntriesOf(t)| && CleanKey(EntriesOf(t)[i].key) && NotFrom(EntriesOf(t), i + 1, EntriesOf(t)[i].key)
    requires Apart(here) && AllBeneath(here, JoinKey(path, EntriesOf(t)[i].key)) && EntriesNamed(t, path, i + 1, there)
    ensures EntriesNamed(t, path, i, here + there)
  {
    hide Beneath, Apart, CleanKey, AllBeneath, AllBelow, NoneBeneath;
    var key := EntriesOf(t)[i].key;
    BelowKey(here, path, key);
    PartsApartBy(here, there, JoinKey(path, key));
    BothBelow(here, there, path);
    forall k | CleanKey(k) && NotFrom(EntriesOf(t), i, k)
      ensures NoneBeneath(here + there, JoinKey(path, k))
    {
      assert k != key && NotFrom(EntriesOf(t), i + 1, k);
      NeitherBeneath(here, there, JoinKey(path, k));
    }
  }

  /** The tables of missing fields lie beneath keys that are no entry's and no earlier field's. */
  ghost predicate FieldsNamed(s: Schema, t: Target, path: string, j: nat, places: seq<string>) {
    && j <= |FieldsOf(s)| && Apart(places) && AllBelow(places, path)
    && (forall i | 0 <= i < j :: NoneBeneath(places, JoinKey(path, FieldsOf(s)[i].name)))
    && forall q | q in places :: BeneathMissing(t, path, q)
  }

  lemma {:induction false} NamedFields(s: Schema, t: Target, path: string, j: nat)
    requires IsTable(s) && NameableTable(s, t) && j <= |FieldsOf(s)|
    ensures FieldsNamed(s, t, path, j, FieldPlaces(s, t, path, j))
    decreases s, Held(t), 3, |FieldsOf(s)| - j
  {
    hide NameableTable, Nameable, Places, Apart, CleanKey, HasKey, FieldsNamed, AllBeneath;
    if j == |FieldsOf(s)| {
      NothingNamed(s, t, path);
    } else {
      var f := FieldsOf(s)[j];
      var here, there := FieldPlace(s, t, path, j), FieldPlaces(s, t, path, j + 1);
      NamedFields(s, t, path, j + 1);
      if Lacks(f, t) {
        NameableField(s, t, j);
        NamedPlaces(f.schema, Absent(true, OriginOf(t)), JoinKey(path, f.name));
        NamedBefore(s, t, path, j, here, there);
      } else {
        assert here + there == there;
        NamedSooner(s, t, path, j, there);
      }
    }
  }

  lemma NothingNamed(s: Schema, t: Target, path: string)
    ensures FieldsNamed(s, t, path, |FieldsOf(s)|, [])
  {
  }

  lemma NamedSooner(s: Schema, t: Target, path: string, j: nat, places: seq<string>)
    requires FieldsNamed(s, t, path, j + 1, places)
    ensures FieldsNamed(s, t, path, j, places)
  {
    hide NoneBeneath, AllBelow, BeneathMissing, Apart;
  }

  lemma NamedBefore(s: Schema, t: Target, path: string, j: nat, here: seq<string>, there: seq<string>)
    requires IsTable(s) && NameableTable(s, t) && j < |FieldsOf(s)| && !HasKey(EntriesOf(t), FieldsOf(s)[j].name)
    requires Apart(here) && AllBeneath(here, JoinKey(path, FieldsOf(s)[j].name)) &&
             FieldsNamed(s, t, path, j + 1, there)
    ensures FieldsNamed(s, t, path, j, here + there)
  {
    hide NameableTable, Beneath, Apart, CleanKey, HasKey, BeneathMissing, AllBelow, NoneBeneath, AllBeneath;
    var name := FieldsOf(s)[j].name;
    NameableField(s, t, j);
    BelowKey(here, path, name);
    assert NoneBeneath(there, JoinKey(path, name));
    PartsApartBy(here, there, JoinKey(path, name));
    BothBelow(here, there, path);
    MissingBeneath(here, t, path, name);
    FieldsElse(s, t, path, j, here, there);
  }

  lemma FieldsElse(s: Schema, t: Target, path: string, j: nat, here: seq<string>, there: seq<string>)
    requires IsTable(s) && NameableTable(s, t) && j < |FieldsOf(s)|
    requires forall k | CleanKey(k) && k != FieldsOf(s)[j].name :: NoneBeneath(here, JoinKey(path, k))
    requires forall i | 0 <= i < j + 1 :: NoneBeneath(there, JoinKey(path, FieldsOf(s)[i].name))
    ensures forall i | 0 <= i < j :: NoneBeneath(here + there, JoinKey(path, FieldsOf(s)[i].name))
  {
    hide NameableTable, NoneBeneath;
    forall i | 0 <= i < j
      ensures NoneBeneath(here + there, JoinKey(path, FieldsOf(s)[i].name))
    {
      NameableField(s, t, i);
      NameableField(s, t, j);
      NeitherBeneath(here, there, JoinKey(path, FieldsOf(s)[i].name));
    }
  }

  ghost predicate BeneathMissing(t: Target, path: string, q: string) {
    exists key :: CleanKey(key) && !HasKey(EntriesOf(t), key) && Beneath(JoinKey(path, key), q)
  }

  lemma MissingBeneath(places: seq<string>, t: Target, path: string, key: string)
    requires CleanKey(key) && !HasKey(EntriesOf(t), key) && AllBeneath(places, JoinKey(path, key))
    ensures forall q | q in places :: BeneathMissing(t, path, q)
  {
    hide CleanKey, HasKey, Beneath;
  }

  lemma {:induction false} NamedTable(s: Schema, t: Target, path: string)
    requires IsTable(s) && NameableTable(s, t)
    ensures Apart(TablePlaces(s, t, path, {})) && AllBeneath(TablePlaces(s, t, path, {}), path)
    decreases s, Held(t), 4, 0
  {
    hide NameableTable, EntryPlaces, FieldPlaces, Apart, Beneath, CleanKey;
    var entries, fields := EntryPlaces(s, t, path, {}, 0), FieldPlaces(s, t, path, 0);
    NamedEntries(s, t, path, 0);
    assert EntriesNamed(t, path, 0, entries);
    NamedFields(s, t, path, 0);
    assert FieldsNamed(s, t, path, 0, fields);
    EntriesNotFields(t, path, entries, fields);
    ApartParts(entries, fields);
    BothBelow(entries, fields, path);
    OnTop(path, entries + fields);
  }

  lemma EntriesNotFields(t: Target, path: string, entries: seq<string>, fields: seq<string>)
    requires forall k | CleanKey(k) && NotFrom(EntriesOf(t), 0, k) :: NoneBeneath(entries, JoinKey(path, k))
    requires forall q | q in fields :: BeneathMissing(t, path, q)
    ensures Disjoint(entries, fields)
  {
    hide CleanKey, Beneath;
    forall q | q in fields
      ensures q !in entries
    {
      assert BeneathMissing(t, path, q);
      var key :| CleanKey(key) && !HasKey(EntriesOf(t), key) && Beneath(JoinKey(path, key), q);
      assert NotFrom(EntriesOf(t), 0, key);
      assert NoneBeneath(entries, JoinKey(path, key));
    }
  }

  lemma OnTop(path: string, places: seq<string>)
    requires Apart(places) && AllBelow(places, path)
    ensures Apart([path] + places) && AllBeneath([path] + places, path)
  {
    hide Apart;
    assert Apart([path]) by { OneApart(path); }
    ApartParts([path], places);
  }

  lemma OneApart(path: string)
    ensures Apart([path])
  {
  }

  // ---- One table of values is clean whatever its keys ----

  predicate Tableless(s: Schema) {
    match s
    case SOption(inner) => Tableless(inner)
    case SMapped(inner, _) => Tableless(inner)
    case SSeq(element) => Tableless(element)
    case _ => IsScalarSchema(s)
  }

  lemma {:induction false} NoPlaces(s: Schema, t: Target, path: string, skip: set<string>)
    requires Tableless(s)
    ensures Places(s, t, path, skip) == []
    decreases s, Held(t), 1, 0
  {
    if s.SOption? {
      if t.At? && !t.node.value.Null? {
        NoPlaces(s.inner, t, path, skip);
      }
    } else if s.SMapped? {
      NoPlaces(s.inner, t, path, skip);
    } else if s.SSeq? {
      NoItemPlaces(s, t, path, 0);
    }
  }

  lemma {:induction false} NoItemPlaces(s: Schema, t: Target, path: string, i: nat)
    requires s.SSeq? && Tableless(s.element) && i <= |ItemsOf(t)|
    ensures ItemPlaces(s, t, path, i) == []
    decreases s, Held(t), 0, |ItemsOf(t)| - i
  {
    hide Places;
    if i < |ItemsOf(t)| {
      NoPlaces(s.element, At(ItemsOf(t)[i]), JoinIndex(path, i), {});
      NoItemPlaces(s, t, path, i + 1);
    }
  }

  lemma {:induction false} NoEntryPlaces(s: Schema, t: Target, path: string, i: nat)
    requires (s.SMap? && Tableless(s.element)) ||
             (s.SStruct? && forall j | 0 <= j < |s.fields| :: Tableless(s.fields[j].schema))
    requires i <= |EntriesOf(t)|
    ensures EntryPlaces(s, t, path, {}, i) == []
    decreases |EntriesOf(t)| - i
  {
    hide Places;
    if i < |EntriesOf(t)| {
      if Reads(s, EntriesOf(t)[i].key) {
        NoPlaces(Under(s, EntriesOf(t)[i].key), At(EntriesOf(t)[i].node), JoinKey(path, EntriesOf(t)[i].key), {});
      }
      NoEntryPlaces(s, t, path, i + 1);
    }
  }

  lemma {:induction false} NoFieldPlaces(s: Schema, t: Target, path: string, j: nat)
    requires s.SMap? || (s.SStruct? && forall j | 0 <= j < |s.fields| :: Tableless(s.fields[j].schema))
    requires j <= |FieldsOf(s)|
    ensures FieldPlaces(s, t, path, j) == []
    decreases |FieldsOf(s)| - j
  {
    hide Places;
    if j < |FieldsOf(s)| {
      NoPlaces(FieldsOf(s)[j].schema, Absent(true, OriginOf(t)), JoinKey(path, FieldsOf(s)[j].name), {});
      NoFieldPlaces(s, t, path, j + 1);
    }
  }

  /** A map or struct of scalars, or of options and sequences of them, may have any keys, as long as they are unique. */
  lemma FlatIsClean(s: Schema, t: Target, path: string)
    requires (s.SMap? && Tableless(s.element)) ||
             (s.SStruct? && forall j | 0 <= j < |s.fields| :: Tableless(s.fields[j].schema))
    requires UniqueRead(s, t)
    ensures CleanRead(s, t, path)
  {
    hide UniqueRead, EntryPlaces, FieldPlaces;
    NoEntryPlaces(s, t, path, 0);
    NoFieldPlaces(s, t, path, 0);
    assert Places(s, t, path, {}) == TablePlaces(s, t, path, {});
    assert TablePlaces(s, t, path, {}) == [path];
    OneApart(path);
  }
}
