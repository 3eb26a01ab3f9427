/** Which problems a section has, said apart from how it is read. */
module BlameLaws {
  import opened Options
  import opened Trees
  import opened Schemas
  import opened Meanings
  import opened Layers
  import opened Reader
  import opened CleanReads
  import CleanKeys
  import opened Drivers
  import opened Checks
  import opened Configs
  import opened ConfigLaws
  import opened AnswerLaws

  // ---- Every problem ----

  predicate IsRequired(f: Field) {
    !f.fallback && !IsOption(f.schema)
  }

  /** The problem of a field that nothing supplies and nothing stands in for; a type's default has no origin. */
  function Lacked(path: string, origin: Option<Origin>, f: Field): Problem {
    Problem(JoinKey(path, f.name), if origin == Some(Default) then None else origin, MissingField)
  }

  /** `p` is a problem of what stands at `t`, read as a type that refuses nothing. */
  ghost predicate Blames(s: Schema, t: Target, path: string, p: Problem)
    decreases s, Held(t), 2
  {
    match s
    case SOption(inner) => t.At? && !t.node.value.Null? && Blames(inner, t, path, p)
    case SSeq(element) =>
      if t.At? && t.node.value.Array? then
        exists i | 0 <= i < |t.node.value.items| :: Blames(element, At(t.node.value.items[i]), JoinIndex(path, i), p)
      else IsMismatch(t, path, "an array", p)
    case SAny => t.Absent? && IsMismatch(t, path, "a value", p)
    case SMap(element) =>
      if t.At? && t.node.value.Table? then
        exists i | 0 <= i < |t.node.value.entries| ::
          Blames(element, At(t.node.value.entries[i].node), JoinKey(path, t.node.value.entries[i].key), p)
      else t.At? && IsMismatch(t, path, "a table", p)
    case SStruct(fields) =>
      if t.At? && t.node.value.Table? then
        || (exists j | 0 <= j < |fields| :: LacksField(t.node, path, fields[j], p))
        || SomeFieldBlames(s, t.node, path, p)
      else if t.At? then IsMismatch(t, path, "a table", p)
      else
        !t.reported && exists j | 0 <= j < |fields| :: IsRequired(fields[j]) && p == Lacked(path, t.origin, fields[j])
    case SMapped(_, _) => false
    case _ =>
      if t.At? then !Fits(s, t.node) && p == Problem(path, Some(t.node.origin), WrongWith(s, t.node.value))
      else IsMismatch(t, path, "", p)
  }

  /** A problem of the entry at `i`, which supplies field `j`. */
  ghost predicate FieldBlames(s: Schema, node: Node, path: string, i: nat, j: nat, p: Problem)
    requires s.SStruct? && node.value.Table? && i < |node.value.entries| && j < |s.fields|
    decreases s, node, 0
  {
    && node.value.entries[i].key == s.fields[j].name
    && Blames(s.fields[j].schema, At(node.value.entries[i].node), JoinKey(path, s.fields[j].name), p)
  }

  ghost predicate SomeFieldBlames(s: Schema, node: Node, path: string, p: Problem)
    requires s.SStruct? && node.value.Table?
    decreases s, node, 1
  {
    exists i, j | 0 <= i < |node.value.entries| && 0 <= j < |s.fields| :: FieldBlames(s, node, path, i, j, p)
  }

  predicate LacksField(node: Node, path: string, f: Field, p: Problem)
    requires node.value.Table?
  {
    Unsupplied(node.value.entries, f.name) && IsRequired(f) && p == Lacked(path, Some(node.origin), f)
  }

  /** A value of the wrong kind, or none where one is needed. */
  predicate IsMismatch(t: Target, path: string, what: string, p: Problem) {
    if t.At? then p == Problem(path, Some(t.node.origin), Expected(what, Kind(t.node.value)))
    else !t.reported && p == Problem(path, t.origin, MissingValue)
  }

  // ---- The checker lists exactly those ----

  lemma MismatchIs(t: Target, path: string, what: string, p: Problem)
    ensures p in Mismatch(t, path, what) <==> IsMismatch(t, path, what, p)
  {
  }

  lemma {:induction false} CheckBlames(s: Schema, t: Target, path: string, p: Problem)
    requires Plain(s) && UniqueRead(s, t)
    ensures p in Check(s, t, path) <==> Blames(s, t, path, p)
    decreases s, Held(t), 2
  {
    hide ReadScalar, Mismatch, IsMismatch, Fits, WrongWith, UniqueTable;
    match s
    case SOption(inner) =>
      if t.At? && !t.node.value.Null? {
        CheckBlames(inner, t, path, p);
      }
    case SSeq(element) =>
      if t.At? && t.node.value.Array? {
        ItemsBlame(element, t.node, path, 0, p);
      } else {
        MismatchIs(t, path, "an array", p);
      }
    case SAny => MismatchIs(t, path, "a value", p);
    case SMap(_) => TableBlames(s, t, path, p);
    case SStruct(_) => TableBlames(s, t, path, p);
    case SBool => ScalarBlames(s, t, path, p);
    case SInt(_) => ScalarBlames(s, t, path, p);
    case SStr => ScalarBlames(s, t, path, p);
    case _ =>
  }

  lemma ScalarBlames(s: Schema, t: Target, path: string, p: Problem)
    requires IsScalarSchema(s)
    ensures p in ReadScalar(s, t, path).problems <==>
            if t.At? then !Fits(s, t.node) && p == Problem(path, Some(t.node.origin), WrongWith(s, t.node.value))
            else IsMismatch(t, path, "", p)
  {
    hide Fits, WrongWith;
    if t.At? {
      ScalarTold(s, t.node, path);
    }
  }

  lemma {:induction false} ItemsBlame(element: Schema, node: Node, path: string, i: nat, p: Problem)
    requires Plain(element) && node.value.Array? && i <= |node.value.items| && UniqueItems(SSeq(element), At(node))
    ensures p in CheckItems(element, node, path, i) <==>
            exists k | i <= k < |node.value.items| :: Blames(element, At(node.value.items[k]), JoinIndex(path, k), p)
    decreases element, node, 3, |node.value.items| - i
  {
    hide Check, Blames, UniqueRead;
    if i < |node.value.items| {
      assert ItemsOf(At(node))[i] == node.value.items[i];
      CheckBlames(element, At(node.value.items[i]), JoinIndex(path, i), p);
      ItemsBlame(element, node, path, i + 1, p);
    }
  }

  ghost predicate EntryBlames(s: Schema, t: Target, path: string, i: nat, p: Problem)
    requires i < |EntriesOf(t)|
  {
    var entry := EntriesOf(t)[i];
    Reads(s, entry.key) && Blames(Schemas.Under(s, entry.key), At(entry.node), JoinKey(path, entry.key), p)
  }

  ghost predicate SomeEntryBlames(s: Schema, t: Target, path: string, i: nat, p: Problem) {
    exists k | i <= k < |EntriesOf(t)| :: EntryBlames(s, t, path, k, p)
  }

  lemma SomeEntryNext(s: Schema, t: Target, path: string, i: nat, p: Problem)
    requires i < |EntriesOf(t)|
    ensures SomeEntryBlames(s, t, path, i, p) <==>
            EntryBlames(s, t, path, i, p) || SomeEntryBlames(s, t, path, i + 1, p)
  {
    hide EntryBlames;
  }

  lemma {:induction false} EntriesBlame(s: Schema, t: Target, path: string, i: nat, p: Problem)
    requires (s.SMap? || s.SStruct?) && Plain(s) && UniqueTable(s, t) && i <= |EntriesOf(t)|
    ensures p in CheckEntries(s, t, path, i) <==> SomeEntryBlames(s, t, path, i, p)
    decreases s, Held(t), 0, |EntriesOf(t)| - i
  {
    hide Check, Blames, UniqueRead, UniqueTable;
    if i < |EntriesOf(t)| {
      EntryIsBlamed(s, t, path, i, p);
      EntriesBlame(s, t, path, i + 1, p);
      SomeEntryNext(s, t, path, i, p);
    }
  }

  lemma {:induction false} EntryIsBlamed(s: Schema, t: Target, path: string, i: nat, p: Problem)
    requires (s.SMap? || s.SStruct?) && Plain(s) && UniqueTable(s, t) && i < |EntriesOf(t)|
    ensures var entry := EntriesOf(t)[i];
            EntryBlames(s, t, path, i, p) <==>
              Reads(s, entry.key) && p in Check(Schemas.Under(s, entry.key), At(entry.node), JoinKey(path, entry.key))
    decreases s, Held(t), 0, 0
  {
    hide Check, Blames, UniqueRead, UniqueTable;
    var entry := EntriesOf(t)[i];
    if Reads(s, entry.key) {
      UniqueEntry(s, t, i);
      CheckBlames(Schemas.Under(s, entry.key), At(entry.node), JoinKey(path, entry.key), p);
    }
  }

  predicate MissesField(t: Target, path: string, f: Field, p: Problem) {
    Lacks(f, t) && MissingProblem(t, path, f.name) == Some(p)
  }

  predicate SomeMissing(fields: seq<Field>, t: Target, path: string, j: nat, p: Problem) {
    exists k | j <= k < |fields| :: MissesField(t, path, fields[k], p)
  }

  lemma SomeMissingNext(fields: seq<Field>, t: Target, path: string, j: nat, p: Problem)
    requires j < |fields|
    ensures SomeMissing(fields, t, path, j, p) <==>
            MissesField(t, path, fields[j], p) || SomeMissing(fields, t, path, j + 1, p)
  {
    hide MissesField;
  }

  lemma {:induction false} MissingBlames(fields: seq<Field>, t: Target, path: string, j: nat, p: Problem)
    requires j <= |fields|
    ensures p in MissingFrom(fields, t, path, j) <==> SomeMissing(fields, t, path, j, p)
    decreases |fields| - j
  {
    hide Lacks, MissingProblem;
    if j < |fields| {
      MissingBlames(fields, t, path, j + 1, p);
      SomeMissingNext(fields, t, path, j, p);
    }
  }

  predicate MissesMeans(t: Target, path: string, f: Field, p: Problem) {
    if t.At? then t.node.value.Table? && LacksField(t.node, path, f, p)
    else !t.reported && IsRequired(f) && p == Lacked(path, t.origin, f)
  }

  lemma MissesIs(t: Target, path: string, f: Field, p: Problem)
    ensures MissesField(t, path, f, p) <==> MissesMeans(t, path, f, p)
  {
    RequiredIs(f);
    if t.At? && t.node.value.Table? {
      assert HasKey(EntriesOf(t), f.name) <==> !Unsupplied(t.node.value.entries, f.name);
    }
  }

  lemma {:induction false} TableBlames(s: Schema, t: Target, path: string, p: Problem)
    requires (s.SMap? || s.SStruct?) && Plain(s) && UniqueTable(s, t)
    ensures p in Check(s, t, path) <==> Blames(s, t, path, p)
    decreases s, Held(t), 1
  {
    hide Check, CheckEntries, MissingFrom, Blames, SomeEntryBlames, SomeMissing, UniqueTable, IsMismatch, Plain;
    EntriesBlame(s, t, path, 0, p);
    MissingBlames(FieldsOf(s), t, path, 0, p);
    CheckIs(s, t, path, p);
    BlamesIs(s, t, path, p);
  }

  lemma CheckIs(s: Schema, t: Target, path: string, p: Problem)
    requires s.SMap? || s.SStruct?
    ensures p in Check(s, t, path) <==>
            || (t.At? && !t.node.value.Table? && IsMismatch(t, path, "a table", p))
            || p in CheckEntries(s, t, path, 0) || p in MissingFrom(FieldsOf(s), t, path, 0)
  {
    hide CheckEntries, MissingFrom;
    if s.SMap? {
      assert MissingFrom(FieldsOf(s), t, path, 0) == [] by { NoneMissing(t, path); }
    }
  }

  lemma NoneMissing(t: Target, path: string)
    ensures MissingFrom([], t, path, 0) == []
  {
  }

  lemma BlamesIs(s: Schema, t: Target, path: string, p: Problem)
    requires (s.SMap? || s.SStruct?) && UniqueTable(s, t)
    ensures Blames(s, t, path, p) <==>
            || (t.At? && !t.node.value.Table? && IsMismatch(t, path, "a table", p))
            || SomeEntryBlames(s, t, path, 0, p) || SomeMissing(FieldsOf(s), t, path, 0, p)
  {
    if s.SMap? {
      MapBlamesIs(s, t, path, p);
    } else {
      StructBlamesIs(s, t, path, p);
    }
  }

  lemma MapBlamesIs(s: Schema, t: Target, path: string, p: Problem)
    requires s.SMap?
    ensures Blames(s, t, path, p) <==>
            || (t.At? && !t.node.value.Table? && IsMismatch(t, path, "a table", p))
            || SomeEntryBlames(s, t, path, 0, p)
  {
    hide IsMismatch;
    if t.At? && t.node.value.Table? {
      assert forall k | 0 <= k < |EntriesOf(t)| ::
          EntryBlames(s, t, path, k, p) ==
          Blames(s.element, At(t.node.value.entries[k].node), JoinKey(path, t.node.value.entries[k].key), p);
    }
  }

  lemma StructBlamesIs(s: Schema, t: Target, path: string, p: Problem)
    requires s.SStruct? && UniqueTable(s, t)
    ensures Blames(s, t, path, p) <==>
            || (t.At? && !t.node.value.Table? && IsMismatch(t, path, "a table", p))
            || SomeEntryBlames(s, t, path, 0, p) || SomeMissing(s.fields, t, path, 0, p)
  {
    hide IsMismatch, MissesField, LacksField, UniqueTable, SomeFieldBlames, EntryBlames;
    forall j | 0 <= j < |s.fields|
      ensures MissesField(t, path, s.fields[j], p) <==> MissesMeans(t, path, s.fields[j], p)
    {
      MissesIs(t, path, s.fields[j], p);
    }
    if t.At? && t.node.value.Table? {
      SomeFieldIs(s, t, path, p);
      StructTable(s, t.node, path, p);
    }
  }

  lemma StructTable(s: Schema, node: Node, path: string, p: Problem)
    requires s.SStruct? && node.value.Table?
    ensures Blames(s, At(node), path, p) <==>
            || (exists j | 0 <= j < |s.fields| :: LacksField(node, path, s.fields[j], p))
            || SomeFieldBlames(s, node, path, p)
  {
    hide LacksField, SomeFieldBlames;
  }

  lemma SomeFieldIs(s: Schema, t: Target, path: string, p: Problem)
    requires s.SStruct? && UniqueTable(s, t) && t.At? && t.node.value.Table?
    ensures SomeEntryBlames(s, t, path, 0, p) <==> SomeFieldBlames(s, t.node, path, p)
  {
    hide EntryBlames, FieldBlames, SomeFieldBlames, UniqueTable;
    if SomeEntryBlames(s, t, path, 0, p) {
      var i :| 0 <= i < |EntriesOf(t)| && EntryBlames(s, t, path, i, p);
      FieldOfEntry(s, t, path, i, p);
      SomeField(s, t.node, path, i, FindField(s.fields, EntriesOf(t)[i].key), p);
    }
    if SomeFieldBlames(s, t.node, path, p) {
      var i, j := PickField(s, t.node, path, p);
      EntryOfField(s, t, path, i, j, p);
    }
  }

  lemma SomeField(s: Schema, node: Node, path: string, i: nat, j: nat, p: Problem)
    requires s.SStruct? && node.value.Table? && i < |node.value.entries| && j < |s.fields|
    requires FieldBlames(s, node, path, i, j, p)
    ensures SomeFieldBlames(s, node, path, p)
  {
    hide Blames;
  }

  lemma PickField(s: Schema, node: Node, path: string, p: Problem) returns (i: nat, j: nat)
    requires s.SStruct? && node.value.Table? && SomeFieldBlames(s, node, path, p)
    ensures i < |node.value.entries| && j < |s.fields| && FieldBlames(s, node, path, i, j, p)
  {
    hide Blames;
    i, j :| 0 <= i < |node.value.entries| && 0 <= j < |s.fields| && FieldBlames(s, node, path, i, j, p);
  }

  lemma FieldOfEntry(s: Schema, t: Target, path: string, i: nat, p: Problem)
    requires s.SStruct? && t.At? && t.node.value.Table? && i < |t.node.value.entries| && EntryBlames(s, t, path, i, p)
    ensures var j := FindField(s.fields, t.node.value.entries[i].key);
            j < |s.fields| && FieldBlames(s, t.node, path, i, j, p)
  {
    hide Blames;
  }

  lemma EntryOfField(s: Schema, t: Target, path: string, i: nat, j: nat, p: Problem)
    requires s.SStruct? && UniqueTable(s, t) && t.At? && t.node.value.Table? && i < |t.node.value.entries|
    requires j < |s.fields| && FieldBlames(s, t.node, path, i, j, p)
    ensures EntryBlames(s, t, path, i, p)
  {
    hide Blames, UniqueTable;
    UniqueField(s, t, j);
  }

  // ---- Of a section ----

  /** How many fields have to be supplied stays within the passes. */
  predicate WithinCap(s: Schema, t: Target) {
    Lacking(s, t) <= 2048
  }

  /**
   * Where no source has a problem, a section of a type that refuses nothing lists exactly the problems
   * its node has; with clean keys, no two of them at one path.
   */
  lemma ListedExactlyWhen(layers: seq<Layer>, s: Schema, path: string, p: Problem)
    requires var t := TargetAt(Loaded(TreesOf(layers)), path); Plain(s) && CleanRead(s, t, path) && WithinCap(s, t)
    requires NoSourceProblem(layers)
    ensures var t, outcome := TargetAt(Loaded(TreesOf(layers)), path), AnswerOf(layers, s, path);
            outcome.Invalid? && p in outcome.problems <==> Blames(s, t, path, p)
  {
    hide UniqueRead, Apart, Places, Plain, Lacking, Check, Driven, TargetAt, OutcomeOf, ReportIn, Blames,
      FailureProblems, FailuresOf, Total, NoSourceProblem, Noticed, CleanKeys.Nameable, DistinctPaths;
    var root := Loaded(TreesOf(layers));
    var t := TargetAt(root, path);
    LayersCount(layers);
    NoProblemNoTotal(layers);
    PlainSectionAnswers(root, FailuresOf(layers), s, path);
    CheckBlames(s, t, path, p);
    var outcome, problems := AnswerOf(layers, s, path), Check(s, t, path);
    if outcome.Invalid? {
      assert FailureProblems(FailuresOf(layers)) == [];
      SameOnes(outcome.problems, problems, p);
    }
  }

  lemma SameOnes(a: seq<Problem>, b: seq<Problem>, p: Problem)
    requires multiset(a) == multiset([]) + multiset(b)
    ensures p in a <==> p in b
  {
    assert p in multiset(a) <==> p in multiset(b);
  }
}
